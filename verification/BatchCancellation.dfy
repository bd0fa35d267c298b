// How rarely the random weights of batch verification hide invalid signatures (crypto/bls_core.c and
// crypto/bls_multisig.go): of all vectors of 128-bit weights, at most 2n - 1 in 2^128 make the
// errors of some part of the search tree cancel.
module BatchCancellation {
  import opened ModArith
  import opened Groups
  import opened Bytes
  import opened Bls
  import opened BatchVerify

  // ------------------------------------------------------- Vectors of weights

  /** The sequences of n weights from 1 to m. */
  ghost function Tuples(n: nat, m: nat): set<seq<nat>> {
    if n == 0 then {[]} else UpTo(Tuples(n - 1, m), m)
  }

  /** The sequences of W, each extended by a weight from 1 to k. */
  ghost function UpTo(W: set<seq<nat>>, k: nat): set<seq<nat>> {
    if k == 0 then {} else UpTo(W, k - 1) + Extended(W, k)
  }

  ghost function Extended(W: set<seq<nat>>, k: nat): set<seq<nat>> {
    Image((w: seq<nat>) => w + [k], W)
  }

  lemma ExtendedHas(W: set<seq<nat>>, k: nat, w: seq<nat>)
    ensures w in Extended(W, k) <==> w != [] && w[..|w| - 1] in W && w[|w| - 1] == k
  {
    var f := (v: seq<nat>) => v + [k];
    if w in Extended(W, k) {
      var v :| v in W && f(v) == w;
      assert w[..|w| - 1] == v;
    }
    if w != [] && w[..|w| - 1] in W && w[|w| - 1] == k {
      assert f(w[..|w| - 1]) == w;
    }
  }

  lemma ExtendedSize(W: set<seq<nat>>, k: nat)
    ensures |Extended(W, k)| == |W|
  {
    var f := (w: seq<nat>) => w + [k];
    forall v, v' | v in W && v' in W && f(v) == f(v')
      ensures v == v'
    {
      assert v == f(v)[..|f(v)| - 1] == v';
    }
    ImageSize(f, W);
  }

  lemma {:induction false} UpToHas(W: set<seq<nat>>, k: nat, w: seq<nat>)
    ensures w in UpTo(W, k) <==> w != [] && w[..|w| - 1] in W && 1 <= w[|w| - 1] <= k
  {
    if k > 0 {
      UpToHas(W, k - 1, w);
      ExtendedHas(W, k, w);
    }
  }

  lemma UpToNew(W: set<seq<nat>>, k: nat)
    ensures UpTo(W, k) !! Extended(W, k + 1)
  {
    forall w | w in Extended(W, k + 1)
      ensures w !in UpTo(W, k)
    {
      ExtendedHas(W, k + 1, w);
      UpToHas(W, k, w);
    }
  }

  /** k times t, by addition. */
  ghost predicate Multiple(size: nat, k: nat, t: nat) {
    size == k * t
  }

  lemma MultipleMore(size: nat, k: nat, t: nat)
    requires Multiple(size, k, t)
    ensures Multiple(size + t, k + 1, t)
  {
  }

  lemma DisjointSize<X>(a: set<X>, b: set<X>)
    requires a !! b
    ensures |a + b| == |a| + |b|
  {
  }

  lemma {:induction false} UpToSize(W: set<seq<nat>>, k: nat)
    ensures Multiple(|UpTo(W, k)|, k, |W|)
  {
    if k > 0 {
      UpToSize(W, k - 1);
      UpToNew(W, k - 1);
      ExtendedSize(W, k);
      DisjointSize(UpTo(W, k - 1), Extended(W, k));
      MultipleMore(|UpTo(W, k - 1)|, k - 1, |W|);
    }
  }

  lemma {:induction false} TuplesHas(n: nat, m: nat, w: seq<nat>)
    ensures w in Tuples(n, m) <==> |w| == n && forall i :: 0 <= i < n ==> 1 <= w[i] <= m
  {
    if n > 0 {
      UpToHas(Tuples(n - 1, m), m, w);
      if |w| > 0 {
        TuplesHas(n - 1, m, w[..|w| - 1]);
      }
    }
  }

  lemma {:induction false} TuplesSize(n: nat, m: nat)
    ensures |Tuples(n, m)| == Pow(m, n)
  {
    if n > 0 {
      TuplesSize(n - 1, m);
      UpToSize(Tuples(n - 1, m), m);
    }
  }

  function Without(w: seq<nat>, k: nat): seq<nat> {
    if k < |w| then w[..k] + w[k + 1..] else w
  }

  lemma WithoutTuple(n: nat, m: nat, w: seq<nat>, k: nat)
    requires w in Tuples(n, m) && k < n
    ensures Without(w, k) in Tuples(n - 1, m)
  {
    TuplesHas(n, m, w);
    TuplesHas(n - 1, m, Without(w, k));
  }

  // ------------------------------------------------------------ One part

  /** The errors xs under the weights w; a rejected entry has no weight. */
  ghost function Weigh<C>(GT: Group<C>, xs: seq<C>, marks: seq<Mark>, w: seq<nat>): (errs: seq<C>)
    requires |xs| == |marks| == |w|
    ensures |errs| == |xs|
    ensures forall i :: 0 <= i < |xs| ==> errs[i] == if marks[i] == Undefined then Times(GT, w[i], xs[i]) else xs[i]
  {
    seq(|xs|, (i: nat) requires i < |xs| => if marks[i] == Undefined then Times(GT, w[i], xs[i]) else xs[i])
  }

  /** The weight of a failing entry is determined by the other weights, when the errors of its part cancel. */
  lemma OneWeight<C(!new)>(
      GT: Group<C>, xs: seq<C>, marks: seq<Mark>, w: seq<nat>, w': seq<nat>, lo: nat, hi: nat, k: nat, r: nat)
    requires Abelian(GT) && |xs| == |marks| == |w| == |w'| && lo <= k < hi <= |xs|
    requires marks[k] == Undefined && PrimeOrder(GT, xs[k], r) && w[k] < r && w'[k] < r
    requires Without(w, k) == Without(w', k)
    requires Sum(GT, Weigh(GT, xs, marks, w)[lo..hi]) == GT.zero && Sum(GT, Weigh(GT, xs, marks, w')[lo..hi]) == GT.zero
    ensures w == w'
  {
    SameElsewhere(w, w', k);
    var e, e', j := Weigh(GT, xs, marks, w)[lo..hi], Weigh(GT, xs, marks, w')[lo..hi], k - lo;
    assert e[..j] == e'[..j] && e[j + 1..] == e'[j + 1..];
    SumAround(GT, e, j);
    SumAround(GT, e', j);
    var around := GT.add(Sum(GT, e[..j]), Sum(GT, e[j + 1..]));
    CancelLeft(GT, around, e[j], e'[j]);
    TimesInjective(GT, w[k], w'[k], xs[k], r);
    CongSmall(w[k], r);
    CongSmall(w'[k], r);
    assert w == w[..k] + [w[k]] + w[k + 1..] && w' == w'[..k] + [w'[k]] + w'[k + 1..];
  }

  lemma SameElsewhere(w: seq<nat>, w': seq<nat>, k: nat)
    requires |w| == |w'| && k < |w| && Without(w, k) == Without(w', k)
    ensures w[..k] == w'[..k] && w[k + 1..] == w'[k + 1..]
    ensures forall i :: 0 <= i < |w| && i != k ==> w[i] == w'[i]
  {
    assert w[..k] == Without(w, k)[..k] && w[k + 1..] == Without(w, k)[k..];
    assert w'[..k] == Without(w', k)[..k] && w'[k + 1..] == Without(w', k)[k..];
    forall i | 0 <= i < |w| && i != k
      ensures w[i] == w'[i]
    {
      if i < k {
        assert w[i] == w[..k][i] && w'[i] == w'[..k][i];
      } else {
        assert w[i] == w[k + 1..][i - k - 1] && w'[i] == w'[k + 1..][i - k - 1];
      }
    }
  }

  /** A sum, with one entry moved to the end. */
  lemma SumAround<C(!new)>(GT: Group<C>, e: seq<C>, j: nat)
    requires Abelian(GT) && j < |e|
    ensures Sum(GT, e) == GT.add(GT.add(Sum(GT, e[..j]), Sum(GT, e[j + 1..])), e[j])
  {
    var a, b, x := Sum(GT, e[..j]), Sum(GT, e[j + 1..]), e[j];
    assert e == e[..j] + e[j..] && e[j..] == [x] + e[j + 1..];
    SumAppend(GT, e[..j], e[j..]);
    assert e[j..][1..] == e[j + 1..];
    assert LawsAt(GT, a, b, x);
    assert LawsAt(GT, x, b, b);
  }

  // --------------------------------------------------------- All parts

  /** Nonzero errors of unmarked entries have order r. */
  ghost predicate Orders<C>(GT: Group<C>, xs: seq<C>, marks: seq<Mark>, r: nat) {
    && |xs| == |marks|
    && forall i :: 0 <= i < |xs| && marks[i] == Undefined && xs[i] != GT.zero ==> PrimeOrder(GT, xs[i], r)
  }

  /** Under the weights w, some part of the search below [lo, hi) is accepted although an entry fails. */
  ghost predicate Cancels<C>(GT: Group<C>, xs: seq<C>, marks: seq<Mark>, w: seq<nat>, lo: nat, hi: nat) {
    && |xs| == |marks| == |w| && lo < hi <= |xs|
    && !NoCancellation(GT, Weigh(GT, xs, marks, w)[lo..hi], marks[lo..hi])
  }

  /** The weights under which the errors of [lo, hi) add up to zero. */
  ghost predicate AddsToZero<C>(GT: Group<C>, xs: seq<C>, marks: seq<Mark>, w: seq<nat>, lo: nat, hi: nat) {
    |xs| == |marks| == |w| && lo < hi <= |xs| && Sum(GT, Weigh(GT, xs, marks, w)[lo..hi]) == GT.zero
  }

  ghost function Dropping(k: nat): seq<nat> -> seq<nat> {
    (w: seq<nat>) => Without(w, k)
  }

  /** Z holds weight vectors under which the errors of [lo, hi) add up to zero. */
  ghost predicate AllZero<C>(GT: Group<C>, xs: seq<C>, marks: seq<Mark>, m: nat, lo: nat, hi: nat, Z: set<seq<nat>>) {
    Z <= Tuples(|xs|, m) && forall w :: w in Z ==> AddsToZero(GT, xs, marks, w, lo, hi)
  }

  lemma DroppingInjective<C(!new)>(
      GT: Group<C>, xs: seq<C>, marks: seq<Mark>, m: nat, lo: nat, hi: nat, k: nat, r: nat, Z: set<seq<nat>>)
    requires Abelian(GT) && |xs| == |marks| && lo <= k < hi <= |xs| && m < r
    requires marks[k] == Undefined && PrimeOrder(GT, xs[k], r) && AllZero(GT, xs, marks, m, lo, hi, Z)
    ensures InjectiveOn(Dropping(k), Z)
  {
    forall w, w' | w in Z && w' in Z && Dropping(k)(w) == Dropping(k)(w')
      ensures w == w'
    {
      TupleBelow(|xs|, m, w, k);
      TupleBelow(|xs|, m, w', k);
      OneWeight(GT, xs, marks, w, w', lo, hi, k, r);
    }
  }

  /** With a failing entry in the part, the other weights leave at most one choice. */
  lemma ZeroingSize<C(!new)>(
      GT: Group<C>, xs: seq<C>, marks: seq<Mark>, m: nat, lo: nat, hi: nat, k: nat, r: nat, Z: set<seq<nat>>)
    requires Abelian(GT) && |xs| == |marks| && lo <= k < hi <= |xs| && m < r
    requires marks[k] == Undefined && PrimeOrder(GT, xs[k], r) && AllZero(GT, xs, marks, m, lo, hi, Z)
    ensures |Z| <= |Tuples(|xs| - 1, m)|
  {
    DroppingInjective(GT, xs, marks, m, lo, hi, k, r, Z);
    InjectedSize(|xs|, m, k, Z);
  }

  lemma InjectedSize(n: nat, m: nat, k: nat, Z: set<seq<nat>>)
    requires k < n && Z <= Tuples(n, m) && InjectiveOn(Dropping(k), Z)
    ensures |Z| <= |Tuples(n - 1, m)|
  {
    ImageSize(Dropping(k), Z);
    ShorterTuples(n, m, k, Z);
    SubsetSize(Image(Dropping(k), Z), Tuples(n - 1, m));
  }

  lemma TupleBelow(n: nat, m: nat, w: seq<nat>, k: nat)
    requires w in Tuples(n, m) && k < n
    ensures |w| == n && w[k] <= m
  {
    TuplesHas(n, m, w);
  }

  lemma ShorterTuples(n: nat, m: nat, k: nat, Z: set<seq<nat>>)
    requires k < n && Z <= Tuples(n, m)
    ensures Image(Dropping(k), Z) <= Tuples(n - 1, m)
  {
    forall w | w in Z
      ensures Without(w, k) in Tuples(n - 1, m)
    {
      WithoutTuple(n, m, w, k);
    }
  }

  ghost predicate SomeFails<C>(GT: Group<C>, xs: seq<C>, marks: seq<Mark>, lo: nat, hi: nat)
    requires |xs| == |marks| && hi <= |xs|
  {
    exists k :: lo <= k < hi && marks[k] == Undefined && xs[k] != GT.zero
  }

  /** A cancellation is in the part itself, with a failing entry, or in one of its halves. */
  lemma CancelsWhere<C(!new)>(GT: Group<C>, xs: seq<C>, marks: seq<Mark>, w: seq<nat>, lo: nat, hi: nat)
    requires Abelian(GT) && Cancels(GT, xs, marks, w, lo, hi)
    ensures
      || (AddsToZero(GT, xs, marks, w, lo, hi) && SomeFails(GT, xs, marks, lo, hi))
      || (hi - lo > 1 &&
          var mid := lo + LeftLen(hi - lo);
          Cancels(GT, xs, marks, w, lo, mid) || Cancels(GT, xs, marks, w, mid, hi))
  {
    var errs, e, f := Weigh(GT, xs, marks, w), Weigh(GT, xs, marks, w)[lo..hi], marks[lo..hi];
    if Sum(GT, e) == GT.zero {
      var i :| 0 <= i < |e| && f[i] == Undefined && e[i] != GT.zero;
      assert marks[lo + i] == f[i] && errs[lo + i] == e[i];
      TimesZero(GT, w[lo + i]);
      assert xs[lo + i] != GT.zero;
    } else if hi - lo > 1 {
      var l := LeftLen(hi - lo);
      assert e[..l] == errs[lo..lo + l] && e[l..] == errs[lo + l..hi];
      assert f[..l] == marks[lo..lo + l] && f[l..] == marks[lo + l..hi];
    }
  }

  lemma UnionSize<X>(s: set<X>, t: set<X>)
    ensures |s + t| <= |s| + |t|
  {
    assert s + t == s + (t - s);
    SubsetSize(t - s, t);
  }

  /** The parts of the search below [lo, hi). */
  ghost function Parts(lo: nat, hi: nat): set<(nat, nat)>
    decreases hi - lo
  {
    if hi <= lo + 1 then {(lo, hi)} else
      var mid := lo + LeftLen(hi - lo);
      {(lo, hi)} + (Parts(lo, mid) + Parts(mid, hi))
  }

  lemma {:induction false} PartsSize(lo: nat, hi: nat)
    requires lo < hi
    ensures |Parts(lo, hi)| <= 2 * (hi - lo) - 1
    decreases hi - lo
  {
    if hi > lo + 1 {
      var mid := lo + LeftLen(hi - lo);
      PartsSize(lo, mid);
      PartsSize(mid, hi);
      UnionSize(Parts(lo, mid), Parts(mid, hi));
      UnionSize({(lo, hi)}, Parts(lo, mid) + Parts(mid, hi));
    }
  }

  lemma {:induction false} PartsInside(lo: nat, hi: nat, p: (nat, nat))
    requires lo < hi && p in Parts(lo, hi)
    ensures lo <= p.0 < p.1 <= hi
    decreases hi - lo
  {
    if hi > lo + 1 && p != (lo, hi) {
      var mid := lo + LeftLen(hi - lo);
      if p in Parts(lo, mid) {
        PartsInside(lo, mid, p);
      } else {
        PartsInside(mid, hi, p);
      }
    }
  }

  /** Under the weights w the part p is accepted although an entry of it fails. */
  ghost predicate Accepts<C>(GT: Group<C>, xs: seq<C>, marks: seq<Mark>, w: seq<nat>, p: (nat, nat)) {
    AddsToZero(GT, xs, marks, w, p.0, p.1) && SomeFails(GT, xs, marks, p.0, p.1)
  }

  /** Every cancellation is in some part. */
  lemma {:induction false} CancelsSomewhere<C(!new)>(
      GT: Group<C>, xs: seq<C>, marks: seq<Mark>, w: seq<nat>, lo: nat, hi: nat)
      returns (p: (nat, nat))
    requires Abelian(GT) && Cancels(GT, xs, marks, w, lo, hi)
    ensures p in Parts(lo, hi) && Accepts(GT, xs, marks, w, p)
    decreases hi - lo
  {
    CancelsWhere(GT, xs, marks, w, lo, hi);
    p := (lo, hi);
    if !Accepts(GT, xs, marks, w, p) {
      var mid := lo + LeftLen(hi - lo);
      if Cancels(GT, xs, marks, w, lo, mid) {
        p := CancelsSomewhere(GT, xs, marks, w, lo, mid);
      } else {
        p := CancelsSomewhere(GT, xs, marks, w, mid, hi);
      }
    }
  }

  /** The weight vectors under which p is accepted wrongly. */
  ghost function Accepting<C(!new)>(GT: Group<C>, xs: seq<C>, marks: seq<Mark>, m: nat, p: (nat, nat)): set<seq<nat>> {
    set w | w in Tuples(|xs|, m) && Accepts(GT, xs, marks, w, p)
  }

  lemma AcceptingSize<C(!new)>(GT: Group<C>, xs: seq<C>, marks: seq<Mark>, m: nat, p: (nat, nat), r: nat)
    requires Abelian(GT) && Orders(GT, xs, marks, r) && m < r && p.0 < p.1 <= |xs|
    ensures |Accepting(GT, xs, marks, m, p)| <= |Tuples(|xs| - 1, m)|
  {
    var Z := Accepting(GT, xs, marks, m, p);
    if w :| w in Z {
      var k :| p.0 <= k < p.1 && marks[k] == Undefined && xs[k] != GT.zero;
      ZeroingSize(GT, xs, marks, m, p.0, p.1, k, r, Z);
    }
  }

  /** At most a times t. */
  ghost predicate AtMost(size: nat, a: nat, t: nat) {
    size <= a * t
  }

  /** A set covered by the sets F(i), each of size at most t. */
  lemma {:induction false} CoverSize<X(!new), Y(!new)>(s: set<X>, I: set<Y>, F: Y -> set<X>, t: nat)
    requires forall x :: x in s ==> exists i :: i in I && x in F(i)
    requires forall i :: i in I ==> |F(i)| <= t
    ensures AtMost(|s|, |I|, t)
    decreases |I|
  {
    if I == {} {
      assert s == {};
    } else {
      var i :| i in I;
      CoverSize(s - F(i), I - {i}, F, t);
      UnionSize(s - F(i), F(i));
      SubsetSize(s, s - F(i) + F(i));
      assert |I| * t == (|I| - 1) * t + t;
    }
  }

  // ---------------------------------------------------------- The batch

  /** The unweighted errors of a batch. */
  ghost function PlainErrors<A, B, C>(S: Scheme<A, B, C>, inputs: seq<seq<byte>>, pks: seq<B>, H: A): (xs: seq<C>)
    requires |inputs| == |pks|
    ensures |xs| == |inputs|
    ensures forall i :: 0 <= i < |xs| ==>
      xs[i] == Error(S, WeightedSig(S, inputs[i], 1), WeightedKey(S, inputs[i], pks[i], 1), H)
  {
    seq(|inputs|, (i: nat) requires i < |inputs| =>
      Error(S, WeightedSig(S, inputs[i], 1), WeightedKey(S, inputs[i], pks[i], 1), H))
  }

  lemma TimesOne<T(!new)>(G: Group<T>, P: T)
    requires Abelian(G)
    ensures Times(G, 1, P) == P
  {
    ZeroLeft(G, P);
  }

  lemma EntryWeighs<A(!new), B(!new), C(!new)>(S: Scheme<A, B, C>, bytes: seq<byte>, pk: B, w: nat, H: A)
    requires ValidScheme(S) && Member(S, H)
    ensures var x := Error(S, WeightedSig(S, bytes, 1), WeightedKey(S, bytes, pk, 1), H);
      && Error(S, WeightedSig(S, bytes, w), WeightedKey(S, bytes, pk, w), H) ==
           (if StartMark(S, bytes) == Undefined then Times(S.GT, w, x) else x)
      && (StartMark(S, bytes) == Undefined ==> Times(S.GT, S.S2.r, x) == S.GT.zero)
  {
    if Readable(S, bytes) {
      var P := S.decode(bytes).value;
      TimesOne(S.G1, P);
      TimesOne(S.S2.G, pk);
      ErrorTimes(S, w, P, pk, H);
      ErrorOrder(S, P, pk, H);
    }
  }

  /** The weight vectors on which batch verification accepts a part that hides a failing entry. */
  ghost predicate BatchCancels<A, B, C>(S: Scheme<A, B, C>, inputs: seq<seq<byte>>, pks: seq<B>, H: A, w: seq<nat>) {
    && 0 < |inputs| == |pks| == |w|
    && !NoCancellation(S.GT, BatchErrors(S, inputs, pks, w, H), StartMarks(S, inputs))
  }

  lemma BatchWeighs<A(!new), B(!new), C(!new)>(
      S: Scheme<A, B, C>, inputs: seq<seq<byte>>, pks: seq<B>, H: A, w: seq<nat>)
    requires ValidScheme(S) && Member(S, H) && 0 < |inputs| == |pks| == |w|
    ensures BatchCancels(S, inputs, pks, H, w) <==>
      Cancels(S.GT, PlainErrors(S, inputs, pks, H), StartMarks(S, inputs), w, 0, |inputs|)
  {
    var xs, marks := PlainErrors(S, inputs, pks, H), StartMarks(S, inputs);
    var errs, e := BatchErrors(S, inputs, pks, w, H), Weigh(S.GT, xs, marks, w);
    forall i | 0 <= i < |inputs|
      ensures errs[i] == e[i]
    {
      EntryWeighs(S, inputs[i], pks[i], w[i], H);
    }
    assert errs == e == e[0..|inputs|] && marks == marks[0..|inputs|];
  }

  lemma PlainOrders<A(!new), B(!new), C(!new)>(S: Scheme<A, B, C>, inputs: seq<seq<byte>>, pks: seq<B>, H: A)
    requires ValidScheme(S) && Member(S, H) && |inputs| == |pks|
    ensures Orders(S.GT, PlainErrors(S, inputs, pks, H), StartMarks(S, inputs), S.S2.r)
  {
    var xs, marks := PlainErrors(S, inputs, pks, H), StartMarks(S, inputs);
    forall i | 0 <= i < |xs| && marks[i] == Undefined && xs[i] != S.GT.zero
      ensures PrimeOrder(S.GT, xs[i], S.S2.r)
    {
      EntryWeighs(S, inputs[i], pks[i], 1, H);
    }
  }

  /** W holds vectors of n weights from 1 to m on which batch verification is misled. */
  ghost predicate Misleading<A, B, C>(
      S: Scheme<A, B, C>, inputs: seq<seq<byte>>, pks: seq<B>, H: A, m: nat, W: set<seq<nat>>)
  {
    W <= Tuples(|inputs|, m) && forall w :: w in W ==> BatchCancels(S, inputs, pks, H, w)
  }

  lemma MisleadingIsAccepted<A(!new), B(!new), C(!new)>(
      S: Scheme<A, B, C>, inputs: seq<seq<byte>>, pks: seq<B>, H: A, m: nat, w: seq<nat>) returns (p: (nat, nat))
    requires ValidScheme(S) && Member(S, H) && w in Tuples(|inputs|, m) && BatchCancels(S, inputs, pks, H, w)
    ensures p in Parts(0, |inputs|)
    ensures w in Accepting(S.GT, PlainErrors(S, inputs, pks, H), StartMarks(S, inputs), m, p)
  {
    BatchWeighs(S, inputs, pks, H, w);
    p := CancelsSomewhere(S.GT, PlainErrors(S, inputs, pks, H), StartMarks(S, inputs), w, 0, |inputs|);
  }

  lemma PartSize<A(!new), B(!new), C(!new)>(
      S: Scheme<A, B, C>, inputs: seq<seq<byte>>, pks: seq<B>, H: A, m: nat, p: (nat, nat))
    requires ValidScheme(S) && Member(S, H) && 0 < |inputs| == |pks| && m < S.S2.r && p in Parts(0, |inputs|)
    ensures |Accepting(S.GT, PlainErrors(S, inputs, pks, H), StartMarks(S, inputs), m, p)| <= |Tuples(|inputs| - 1, m)|
  {
    PlainOrders(S, inputs, pks, H);
    PartsInside(0, |inputs|, p);
    AcceptingSize(S.GT, PlainErrors(S, inputs, pks, H), StartMarks(S, inputs), m, p, S.S2.r);
  }

  lemma MisleadingSize<A(!new), B(!new), C(!new)>(
      S: Scheme<A, B, C>, inputs: seq<seq<byte>>, pks: seq<B>, H: A, m: nat, W: set<seq<nat>>)
    requires ValidScheme(S) && Member(S, H) && 0 < |inputs| == |pks| && m < S.S2.r
    requires Misleading(S, inputs, pks, H, m, W)
    ensures AtMost(|W|, |Parts(0, |inputs|)|, |Tuples(|inputs| - 1, m)|)
  {
    var I, t := Parts(0, |inputs|), |Tuples(|inputs| - 1, m)|;
    var xs, marks := PlainErrors(S, inputs, pks, H), StartMarks(S, inputs);
    var F := (p: (nat, nat)) => Accepting(S.GT, xs, marks, m, p);
    forall w | w in W
      ensures exists p :: p in I && w in F(p)
    {
      var p := MisleadingIsAccepted(S, inputs, pks, H, m, w);
    }
    forall p | p in I
      ensures |F(p)| <= t
    {
      PartSize(S, inputs, pks, H, m, p);
    }
    CoverSize(W, I, F, t);
  }

  lemma Wider(size: nat, a: nat, b: nat, t: nat)
    requires AtMost(size, a, t) && a <= b
    ensures AtMost(size, b, t)
  {
  }

  /**
   Cancellations are rare: of the vectors of n weights from 1 to m, at most 2n - 1 times the number of
   vectors of n - 1 weights make the search accept a part with a failing entry, whatever signatures
   and keys are given.
   */
  lemma CancellationsAreRare<A(!new), B(!new), C(!new)>(
      S: Scheme<A, B, C>, inputs: seq<seq<byte>>, pks: seq<B>, H: A, n: nat, m: nat, W: set<seq<nat>>)
    requires ValidScheme(S) && Member(S, H) && 0 < |inputs| == |pks| == n && m < S.S2.r
    requires Misleading(S, inputs, pks, H, m, W)
    ensures AtMost(|W|, 2 * n - 1, |Tuples(n - 1, m)|)
  {
    MisleadingSize(S, inputs, pks, H, m, W);
    PartsSize(0, |inputs|);
    Wider(|W|, |Parts(0, |inputs|)|, 2 * |inputs| - 1, |Tuples(|inputs| - 1, m)|);
  }

  /** With these weights the batch reports something else than verifying the signatures one by one. */
  ghost predicate Misreports<A, B, C>(
      S: Scheme<A, B, C>, pks: seq<B>, sigs: seq<seq<byte>>, H: A, bad: seq<byte>, w: seq<nat>)
  {
    exists v :: BatchVerdicts(S, pks, sigs, H, bad, w, v) && !Exact(S, pks, sigs, H, v)
  }

  ghost predicate Exact<A, B, C>(S: Scheme<A, B, C>, pks: seq<B>, sigs: seq<seq<byte>>, H: A, v: seq<Mark>)
    requires |pks| == |sigs| == |v|
  {
    forall i :: 0 <= i < |v| ==> (v[i] == Valid <==> Verifies(S, pks[i], sigs[i], H))
  }

  lemma MisreportCancels<A(!new), B(!new), C(!new)>(
      S: Scheme<A, B, C>, pks: seq<B>, sigs: seq<seq<byte>>, H: A, bad: seq<byte>, w: seq<nat>)
    requires ValidScheme(S) && Member(S, H) && S.decode(bad) == None && |pks| == |sigs|
    requires Misreports(S, pks, sigs, H, bad, w)
    ensures BatchCancels(S, HandedAll(S, pks, sigs, bad), pks, H, w)
  {
    var v :| BatchVerdicts(S, pks, sigs, H, bad, w, v) && !Exact(S, pks, sigs, H, v);
    BatchExact(S, pks, sigs, H, bad, w, v);
  }

  /** W holds vectors of weights from 1 to m on which the batch misreports. */
  ghost predicate Misreporting<A, B, C>(
      S: Scheme<A, B, C>, pks: seq<B>, sigs: seq<seq<byte>>, H: A, bad: seq<byte>, m: nat, W: set<seq<nat>>)
  {
    W <= Tuples(|sigs|, m) && forall w :: w in W ==> Misreports(S, pks, sigs, H, bad, w)
  }

  lemma MisreportsMislead<A(!new), B(!new), C(!new)>(
      S: Scheme<A, B, C>, pks: seq<B>, sigs: seq<seq<byte>>, H: A, bad: seq<byte>, m: nat, W: set<seq<nat>>)
    requires ValidScheme(S) && Member(S, H) && S.decode(bad) == None && |pks| == |sigs|
    requires Misreporting(S, pks, sigs, H, bad, m, W)
    ensures Misleading(S, HandedAll(S, pks, sigs, bad), pks, H, m, W)
  {
    forall w | w in W
      ensures BatchCancels(S, HandedAll(S, pks, sigs, bad), pks, H, w)
    {
      MisreportCancels(S, pks, sigs, H, bad, w);
    }
  }

  /**
   Of the vectors of n weights that can be drawn for a batch, at most 2n - 1 times the number of
   vectors of n - 1 weights, that is 2n - 1 in m, make its result differ from verifying the
   signatures one by one. The code has m = MAX_WEIGHT, 2^128.
   */
  lemma BatchRarelyMisreports<A(!new), B(!new), C(!new)>(
      S: Scheme<A, B, C>, pks: seq<B>, sigs: seq<seq<byte>>, H: A, bad: seq<byte>, n: nat, m: nat, W: set<seq<nat>>)
    requires ValidScheme(S) && Member(S, H) && S.decode(bad) == None && 0 < |pks| == |sigs| == n && m <= MAX_WEIGHT
    requires Misreporting(S, pks, sigs, H, bad, m, W)
    ensures AtMost(|W|, 2 * n - 1, |Tuples(n - 1, m)|)
  {
    MisreportsMislead(S, pks, sigs, H, bad, m, W);
    CancellationsAreRare(S, HandedAll(S, pks, sigs, bad), pks, H, n, m, W);
  }
}
