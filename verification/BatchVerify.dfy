// Batch verification of signatures of one message (crypto/bls_core.c and
// crypto/bls_multisig.go): random weights, a binary tree of aggregates, and a
// recursive search for the invalid leaves that fills a results buffer in place.
module BatchVerify {
  import opened ModArith
  import opened Groups
  import opened Bytes
  import opened Bls
  import opened ThresholdSignatures

  datatype Mark = Undefined | Valid | Invalid

  // ----------------------------------------------------------- Pairing errors

  /** How far a pair is from verifying: e(s, g2) - e(H, pk). */
  ghost function Error<A, B, C>(S: Scheme<A, B, C>, s: A, pk: B, H: A): C {
    S.GT.add(S.e(s, S.S2.g), S.GT.neg(S.e(H, pk)))
  }

  lemma ErrorZero<A(!new), B(!new), C(!new)>(S: Scheme<A, B, C>, s: A, pk: B, H: A)
    requires ValidScheme(S)
    ensures Error(S, s, pk, H) == S.GT.zero <==> PairingEquation(S, pk, s, H)
  {
    assert LawsAt(S.GT, S.e(H, pk), S.GT.zero, S.GT.zero);
    if Error(S, s, pk, H) == S.GT.zero {
      DifferenceZero(S.GT, S.e(s, S.S2.g), S.e(H, pk));
    }
  }

  lemma NegUnique<T(!new)>(G: Group<T>, a: T, b: T)
    requires Abelian(G) && G.add(a, b) == G.zero
    ensures b == G.neg(a)
  {
    assert LawsAt(G, a, b, b);
    CancelLeft(G, a, b, G.neg(a));
  }

  lemma NegAdd<T(!new)>(G: Group<T>, a: T, b: T)
    requires Abelian(G)
    ensures G.neg(G.add(a, b)) == G.add(G.neg(a), G.neg(b))
  {
    Shuffle(G, a, b, G.neg(a), G.neg(b));
    assert LawsAt(G, a, a, a);
    assert LawsAt(G, b, b, b);
    ZeroLeft(G, G.zero);
    NegUnique(G, G.add(a, b), G.add(G.neg(a), G.neg(b)));
  }

  lemma TimesNeg<T(!new)>(G: Group<T>, n: nat, a: T)
    requires Abelian(G)
    ensures Times(G, n, G.neg(a)) == G.neg(Times(G, n, a))
  {
    TimesSum(G, n, a, G.neg(a));
    assert LawsAt(G, a, a, a);
    TimesZero(G, n);
    NegUnique(G, Times(G, n, a), Times(G, n, G.neg(a)));
  }

  /** The error of an aggregate is the sum of the errors. */
  lemma ErrorAdd<A(!new), B(!new), C(!new)>(S: Scheme<A, B, C>, s: A, s': A, pk: B, pk': B, H: A)
    requires ValidScheme(S)
    ensures Error(S, S.G1.add(s, s'), S.S2.G.add(pk, pk'), H) == S.GT.add(Error(S, s, pk, H), Error(S, s', pk', H))
  {
    var u, u', v, v' := S.e(s, S.S2.g), S.e(s', S.S2.g), S.e(H, pk), S.e(H, pk');
    assert BilinearAt(S.G1, S.S2.G, S.GT, S.e, s, s', S.S2.g, S.S2.g);
    assert BilinearAt(S.G1, S.S2.G, S.GT, S.e, H, H, pk, pk');
    NegAdd(S.GT, v, v');
    Shuffle(S.GT, u, u', S.GT.neg(v), S.GT.neg(v'));
  }

  lemma ErrorTimes<A(!new), B(!new), C(!new)>(S: Scheme<A, B, C>, c: nat, s: A, pk: B, H: A)
    requires ValidScheme(S)
    ensures Error(S, Times(S.G1, c, s), Times(S.S2.G, c, pk), H) == Times(S.GT, c, Error(S, s, pk, H))
  {
    var u, v := S.e(s, S.S2.g), S.e(H, pk);
    BilinearTimes(S.G1, S.S2.G, S.GT, S.e, c, s, S.S2.g);
    BilinearTimes(S.G1, S.S2.G, S.GT, S.e, c, H, pk);
    TimesNeg(S.GT, c, v);
    TimesSum(S.GT, c, u, S.GT.neg(v));
  }

  /** Errors of subgroup points are killed by the group order. */
  lemma ErrorOrder<A(!new), B(!new), C(!new)>(S: Scheme<A, B, C>, s: A, pk: B, H: A)
    requires ValidScheme(S) && Member(S, s) && Member(S, H)
    ensures Times(S.GT, S.S2.r, Error(S, s, pk, H)) == S.GT.zero
  {
    var r, u, v := S.S2.r, S.e(s, S.S2.g), S.e(H, pk);
    BilinearTimes(S.G1, S.S2.G, S.GT, S.e, r, s, S.S2.g);
    BilinearTimes(S.G1, S.S2.G, S.GT, S.e, r, H, pk);
    BilinearZero(S.G1, S.S2.G, S.GT, S.e, s, S.S2.g);
    BilinearZero(S.G1, S.S2.G, S.GT, S.e, s, pk);
    TimesNeg(S.GT, r, v);
    TimesSum(S.GT, r, u, S.GT.neg(v));
    assert LawsAt(S.GT, S.GT.zero, S.GT.zero, S.GT.zero);
  }

  /** A weight that is nonzero modulo r does not hide an error. */
  lemma WeightKeepsError<A(!new), B(!new), C(!new)>(S: Scheme<A, B, C>, c: nat, s: A, pk: B, H: A)
    requires ValidScheme(S) && Member(S, s) && Member(S, H) && 0 < c < S.S2.r
    ensures Error(S, Times(S.G1, c, s), Times(S.S2.G, c, pk), H) == S.GT.zero <==> PairingEquation(S, pk, s, H)
  {
    var x := Error(S, s, pk, H);
    ErrorTimes(S, c, s, pk, H);
    ErrorZero(S, s, pk, H);
    ErrorOrder(S, s, pk, H);
    TimesZero(S.GT, c);
    if x != S.GT.zero {
      TimesIsZero(S.GT, c, x, S.S2.r);
      CongSmall(c, S.S2.r);
    }
  }

  ghost function Errors<A, B, C>(S: Scheme<A, B, C>, sigs: seq<A>, pks: seq<B>, H: A): (errs: seq<C>)
    requires |sigs| == |pks|
    ensures |errs| == |sigs| && forall i :: 0 <= i < |sigs| ==> errs[i] == Error(S, sigs[i], pks[i], H)
  {
    seq(|sigs|, (i: nat) requires i < |sigs| => Error(S, sigs[i], pks[i], H))
  }

  // ----------------------------------------------------------------- The tree

  datatype Tree<A, B> = Leaf(sig: A, pk: B) | Node(sig: A, pk: B, left: Tree<A, B>, right: Tree<A, B>)

  /** The left half is the larger one. */
  function LeftLen(n: nat): (l: nat)
    ensures n > 1 ==> 0 < l < n
  {
    n - n / 2
  }

  /** build_tree */
  function BuildTree<A, B, C>(S: Scheme<A, B, C>, pks: seq<B>, sigs: seq<A>): Tree<A, B>
    requires 0 < |pks| == |sigs|
    decreases |pks|
  {
    if |pks| == 1 then Leaf(sigs[0], pks[0]) else
      var l := LeftLen(|pks|);
      var left, right := BuildTree(S, pks[..l], sigs[..l]), BuildTree(S, pks[l..], sigs[l..]);
      Node(S.G1.add(left.sig, right.sig), S.S2.G.add(left.pk, right.pk), left, right)
  }

  ghost predicate IsTree<A, B, C>(S: Scheme<A, B, C>, t: Tree<A, B>, pks: seq<B>, sigs: seq<A>)
    requires 0 < |pks| == |sigs|
  {
    t == BuildTree(S, pks, sigs)
  }

  lemma Subtrees<A, B, C>(S: Scheme<A, B, C>, t: Tree<A, B>, pks: seq<B>, sigs: seq<A>, l: nat)
    requires 1 < |pks| == |sigs| && l == LeftLen(|pks|) && IsTree(S, t, pks, sigs)
    ensures t.Node? && IsTree(S, t.left, pks[..l], sigs[..l]) && IsTree(S, t.right, pks[l..], sigs[l..])
  {
  }

  /** A node verifies exactly when the errors of its leaves add up to zero. */
  lemma {:induction false} TreeError<A(!new), B(!new), C(!new)>(S: Scheme<A, B, C>, pks: seq<B>, sigs: seq<A>, H: A)
    requires ValidScheme(S) && 0 < |pks| == |sigs|
    ensures var t := BuildTree(S, pks, sigs);
      Error(S, t.sig, t.pk, H) == Sum(S.GT, Errors(S, sigs, pks, H))
    decreases |pks|
  {
    if |pks| == 1 {
      assert Errors(S, sigs, pks, H) == [Error(S, sigs[0], pks[0], H)];
      SumOne(S.GT, Error(S, sigs[0], pks[0], H));
    } else {
      var l := LeftLen(|pks|);
      TreeError(S, pks[..l], sigs[..l], H);
      TreeError(S, pks[l..], sigs[l..], H);
      var left, right := BuildTree(S, pks[..l], sigs[..l]), BuildTree(S, pks[l..], sigs[l..]);
      ErrorAdd(S, left.sig, right.sig, left.pk, right.pk, H);
      ErrorsSum(S, sigs, pks, H, l);
    }
  }

  lemma ErrorsSum<A, B, C(!new)>(S: Scheme<A, B, C>, sigs: seq<A>, pks: seq<B>, H: A, l: nat)
    requires l <= |sigs| == |pks| && Abelian(S.GT)
    ensures Sum(S.GT, Errors(S, sigs, pks, H)) ==
      S.GT.add(Sum(S.GT, Errors(S, sigs[..l], pks[..l], H)), Sum(S.GT, Errors(S, sigs[l..], pks[l..], H)))
  {
    var errs := Errors(S, sigs, pks, H);
    ErrorsSplit(S, sigs, pks, H, l);
    SumAppend(S.GT, errs[..l], errs[l..]);
    assert errs[..l] + errs[l..] == errs;
  }

  lemma ErrorsSplit<A, B, C>(S: Scheme<A, B, C>, sigs: seq<A>, pks: seq<B>, H: A, l: nat)
    requires l <= |sigs| == |pks|
    ensures Errors(S, sigs[..l], pks[..l], H) == Errors(S, sigs, pks, H)[..l]
    ensures Errors(S, sigs[l..], pks[l..], H) == Errors(S, sigs, pks, H)[l..]
  {
  }

  // ------------------------------------------------- What the search computes

  function Settle(m: Mark): Mark {
    if m == Undefined then Valid else m
  }

  function SettleAll(marks: seq<Mark>): (v: seq<Mark>)
    ensures |v| == |marks| && forall i :: 0 <= i < |marks| ==> v[i] == Settle(marks[i])
  {
    seq(|marks|, (i: nat) requires i < |marks| => Settle(marks[i]))
  }

  /** The marks after the search, as a function of the errors and of the marks before. */
  function Verdicts<C(==)>(GT: Group<C>, errs: seq<C>, marks: seq<Mark>): (v: seq<Mark>)
    requires 0 < |errs| == |marks|
    ensures |v| == |marks|
    decreases |errs|
  {
    if Sum(GT, errs) == GT.zero then SettleAll(marks)
    else if |errs| == 1 then [Invalid]
    else
      var l := LeftLen(|errs|);
      Verdicts(GT, errs[..l], marks[..l]) + Verdicts(GT, errs[l..], marks[l..])
  }

  /** The number of pairing checks the search makes. */
  function Calls<C(==)>(GT: Group<C>, errs: seq<C>): nat
    requires |errs| > 0
    decreases |errs|
  {
    if Sum(GT, errs) == GT.zero || |errs| == 1 then 1
    else
      var l := LeftLen(|errs|);
      1 + Calls(GT, errs[..l]) + Calls(GT, errs[l..])
  }

  ghost predicate AreVerdicts<C>(GT: Group<C>, errs: seq<C>, marks: seq<Mark>, v: seq<Mark>)
    requires 0 < |errs| == |marks|
  {
    v == Verdicts(GT, errs, marks)
  }

  /** The marks are those of a from off on. */
  ghost predicate Holds(a: seq<Mark>, off: nat, marks: seq<Mark>) {
    off + |marks| <= |a| && forall i :: 0 <= i < |marks| ==> a[off + i] == marks[i]
  }

  /** b is a with the marks v written from off on. */
  ghost predicate Written(a: seq<Mark>, b: seq<Mark>, off: nat, v: seq<Mark>) {
    off + |v| <= |a| && b == a[..off] + v + a[off + |v|..]
  }

  /** The aggregated check at a node. */
  method VerifyNode<A(!new), B(!new), C(!new)>(
      S: Scheme<A, B, C>, t: Tree<A, B>, H: A, ghost pks: seq<B>, ghost sigs: seq<A>)
      returns (ok: bool)
    requires ValidScheme(S) && 0 < |pks| == |sigs| && IsTree(S, t, pks, sigs)
    ensures ok <==> Sum(S.GT, Errors(S, sigs, pks, H)) == S.GT.zero
  {
    ok := VerifyPoint(S, t.pk, t.sig, H);
    TreeError(S, pks, sigs, H);
    ErrorZero(S, t.sig, t.pk, H);
  }

  /** bls_batchVerify_tree, on the part of the results buffer that starts at off and holds the given marks. */
  method BatchVerifyTree<A(!new), B(!new), C(!new)>(
      S: Scheme<A, B, C>, t: Tree<A, B>, len: nat, results: array<Mark>, off: nat, H: A,
      ghost pks: seq<B>, ghost sigs: seq<A>, ghost marks: seq<Mark>)
      returns (ghost calls: nat, ghost v: seq<Mark>)
    requires ValidScheme(S) && 0 < len == |pks| == |sigs| == |marks| && IsTree(S, t, pks, sigs)
    requires off + len <= results.Length && Holds(results[..], off, marks)
    modifies results
    ensures Written(old(results[..]), results[..], off, v)
    ensures AreVerdicts(S.GT, Errors(S, sigs, pks, H), marks, v)
    ensures calls == Calls(S.GT, Errors(S, sigs, pks, H))
    decreases len, 1
  {
    calls := 1;
    var res := VerifyNode(S, t, H, pks, sigs);
    if res {
      v := SettleAll(marks);
      SettleRange(results, off, len, marks);
    } else if t.Leaf? {
      v := [Invalid];
      results[off] := Invalid;
    } else {
      calls, v := SearchBelow(S, t, len, results, off, H, pks, sigs, marks);
    }
  }

  /** The two recursive calls at a rejected inner node. */
  method SearchBelow<A(!new), B(!new), C(!new)>(
      S: Scheme<A, B, C>, t: Tree<A, B>, len: nat, results: array<Mark>, off: nat, H: A,
      ghost pks: seq<B>, ghost sigs: seq<A>, ghost marks: seq<Mark>)
      returns (ghost calls: nat, ghost v: seq<Mark>)
    requires ValidScheme(S) && 1 < len == |pks| == |sigs| == |marks| && IsTree(S, t, pks, sigs)
    requires off + len <= results.Length && Holds(results[..], off, marks)
    requires Sum(S.GT, Errors(S, sigs, pks, H)) != S.GT.zero
    modifies results
    ensures Written(old(results[..]), results[..], off, v)
    ensures AreVerdicts(S.GT, Errors(S, sigs, pks, H), marks, v)
    ensures calls == Calls(S.GT, Errors(S, sigs, pks, H))
    decreases len, 0
  {
    var r := len / 2;
    var l := len - r;
    ghost var before := results[..];
    ErrorsSplit(S, sigs, pks, H, l);
    Subtrees(S, t, pks, sigs, l);
    ghost var c1, v1 := BatchVerifyTree(S, t.left, l, results, off, H, pks[..l], sigs[..l], marks[..l]);
    ghost var middle := results[..];
    StillHolds(before, middle, off, v1, marks, l);
    ghost var c2, v2 := BatchVerifyTree(S, t.right, r, results, off + l, H, pks[l..], sigs[l..], marks[l..]);
    calls, v := 1 + c1 + c2, v1 + v2;
    WrittenTwice(before, middle, results[..], off, v1, v2);
    VerdictsSplit(S.GT, Errors(S, sigs, pks, H), marks, l, v1, v2);
  }

  /** The loop that settles the undefined marks of a range. */
  method SettleRange(results: array<Mark>, off: nat, len: nat, ghost marks: seq<Mark>)
    requires len == |marks| && off + len <= results.Length && Holds(results[..], off, marks)
    modifies results
    ensures Written(old(results[..]), results[..], off, SettleAll(marks))
  {
    for i := 0 to len
      invariant forall k :: 0 <= k < results.Length ==>
        results[k] == if off <= k < off + i then Settle(old(results[k])) else old(results[k])
    {
      if results[off + i] == Undefined {
        results[off + i] := Valid;
      }
    }
  }

  /** The verdicts on a rejected part are those on its halves. */
  lemma VerdictsSplit<C>(GT: Group<C>, errs: seq<C>, marks: seq<Mark>, l: nat, v: seq<Mark>, w: seq<Mark>)
    requires 1 < |errs| == |marks| && l == LeftLen(|errs|) && Sum(GT, errs) != GT.zero
    requires AreVerdicts(GT, errs[..l], marks[..l], v) && AreVerdicts(GT, errs[l..], marks[l..], w)
    ensures AreVerdicts(GT, errs, marks, v + w)
    ensures Calls(GT, errs) == 1 + Calls(GT, errs[..l]) + Calls(GT, errs[l..])
  {
  }

  /** Writing the left half leaves the marks of the right half alone. */
  lemma StillHolds(a: seq<Mark>, b: seq<Mark>, off: nat, v: seq<Mark>, marks: seq<Mark>, l: nat)
    requires Holds(a, off, marks) && |v| == l <= |marks| && Written(a, b, off, v)
    ensures Holds(b, off + l, marks[l..])
  {
    assert b[off + l..] == a[off + l..];
  }

  lemma WrittenTwice(a: seq<Mark>, b: seq<Mark>, c: seq<Mark>, off: nat, v: seq<Mark>, w: seq<Mark>)
    requires Written(a, b, off, v) && Written(b, c, off + |v|, w)
    ensures Written(a, c, off, v + w)
  {
    assert b[..off + |v|] == a[..off] + v;
    assert b[off + |v| + |w|..] == a[off + |v| + |w|..];
    assert c == a[..off] + (v + w) + a[off + |v| + |w|..];
  }

  // -------------------------------------------------- Exactness of the search

  /** What checking the entries one by one reports. */
  function OneByOne<C(==)>(GT: Group<C>, errs: seq<C>, marks: seq<Mark>): (v: seq<Mark>)
    requires |errs| == |marks|
    ensures |v| == |marks|
  {
    seq(|marks|, (i: nat) requires i < |marks| => if errs[i] == GT.zero then Settle(marks[i]) else Invalid)
  }

  /** In every part the search accepts, the errors of the unmarked entries are all zero. */
  ghost predicate NoCancellation<C>(GT: Group<C>, errs: seq<C>, marks: seq<Mark>)
    requires 0 < |errs| == |marks|
    decreases |errs|
  {
    if Sum(GT, errs) == GT.zero then forall i :: 0 <= i < |errs| && marks[i] == Undefined ==> errs[i] == GT.zero
    else if |errs| == 1 then true
    else
      var l := LeftLen(|errs|);
      NoCancellation(GT, errs[..l], marks[..l]) && NoCancellation(GT, errs[l..], marks[l..])
  }

  /** Marks before the search: undefined or already rejected. */
  ghost predicate Unsettled(marks: seq<Mark>) {
    forall i :: 0 <= i < |marks| ==> marks[i] != Valid
  }

  /** No mark stays undefined, rejected entries stay rejected, and valid entries are reported valid. */
  lemma {:induction false} SearchSound<C(!new)>(GT: Group<C>, errs: seq<C>, marks: seq<Mark>, i: nat)
    requires Abelian(GT) && i < |errs| == |marks| && Unsettled(marks)
    ensures var v := Verdicts(GT, errs, marks)[i];
      && v != Undefined && (marks[i] == Invalid ==> v == Invalid)
      && (marks[i] == Undefined && errs[i] == GT.zero ==> v == Valid)
    decreases |errs|
  {
    if Sum(GT, errs) != GT.zero {
      if |errs| == 1 {
        SumOne(GT, errs[0]);
        assert errs == [errs[0]];
      } else {
        var l := LeftLen(|errs|);
        if i < l {
          SearchSound(GT, errs[..l], marks[..l], i);
        } else {
          SearchSound(GT, errs[l..], marks[l..], i - l);
        }
      }
    }
  }

  /** The search equals one-by-one checking exactly when no accepted part hides cancelling errors. */
  lemma {:induction false} SearchExact<C(!new)>(GT: Group<C>, errs: seq<C>, marks: seq<Mark>)
    requires Abelian(GT) && 0 < |errs| == |marks| && Unsettled(marks)
    ensures Verdicts(GT, errs, marks) == OneByOne(GT, errs, marks) <==> NoCancellation(GT, errs, marks)
    decreases |errs|
  {
    var v, w := Verdicts(GT, errs, marks), OneByOne(GT, errs, marks);
    if Sum(GT, errs) == GT.zero {
      AcceptedExact(GT, errs, marks);
    } else if |errs| == 1 {
      SumOne(GT, errs[0]);
      assert errs == [errs[0]];
      assert w == [Invalid];
    } else {
      var l := LeftLen(|errs|);
      SearchExact(GT, errs[..l], marks[..l]);
      SearchExact(GT, errs[l..], marks[l..]);
      assert w[..l] == OneByOne(GT, errs[..l], marks[..l]);
      assert w[l..] == OneByOne(GT, errs[l..], marks[l..]);
      assert v[..l] == Verdicts(GT, errs[..l], marks[..l]);
      assert v[l..] == Verdicts(GT, errs[l..], marks[l..]);
      assert v == v[..l] + v[l..] && w == w[..l] + w[l..];
    }
  }

  lemma AcceptedExact<C(!new)>(GT: Group<C>, errs: seq<C>, marks: seq<Mark>)
    requires 0 < |errs| == |marks| && Unsettled(marks)
    ensures SettleAll(marks) == OneByOne(GT, errs, marks) <==>
      forall i :: 0 <= i < |errs| && marks[i] == Undefined ==> errs[i] == GT.zero
  {
    var v, w := SettleAll(marks), OneByOne(GT, errs, marks);
    if v == w {
      forall i | 0 <= i < |errs| && marks[i] == Undefined
        ensures errs[i] == GT.zero
      {
        assert v[i] == w[i];
      }
    }
  }

  // --------------------------------------------------------- Cost of the search

  /** The number of failing entries. */
  function Failing<C(==)>(GT: Group<C>, errs: seq<C>): nat {
    if errs == [] then 0 else (if errs[0] == GT.zero then 0 else 1) + Failing(GT, errs[1..])
  }

  lemma {:induction false} FailingAppend<C>(GT: Group<C>, a: seq<C>, b: seq<C>)
    ensures Failing(GT, a + b) == Failing(GT, a) + Failing(GT, b)
  {
    if a == [] {
      assert a + b == b;
    } else {
      FailingAppend(GT, a[1..], b);
      assert (a + b)[1..] == a[1..] + b;
    }
  }

  lemma {:induction false} SomeFail<C(!new)>(GT: Group<C>, errs: seq<C>)
    requires Abelian(GT) && Failing(GT, errs) == 0
    ensures Sum(GT, errs) == GT.zero
  {
    if errs != [] {
      SomeFail(GT, errs[1..]);
      ZeroLeft(GT, GT.zero);
    }
  }

  /** The base-2 logarithm of n, rounded up. */
  function CeilLog2(n: nat): nat {
    if n <= 1 then 0 else 1 + CeilLog2(n - n / 2)
  }

  lemma {:induction false} CeilLog2Correct(n: nat)
    requires n > 0
    ensures n <= Pow(2, CeilLog2(n)) && (n > 1 ==> Pow(2, CeilLog2(n) - 1) < n)
  {
    if n > 1 {
      CeilLog2Correct(n - n / 2);
    }
  }

  lemma {:induction false} CeilLog2Monotone(m: nat, n: nat)
    requires m <= n
    ensures CeilLog2(m) <= CeilLog2(n)
  {
    if m > 1 {
      CeilLog2Monotone(m - m / 2, n - n / 2);
    }
  }

  /** With k failing entries among n the search makes at most 1 + 2 k ceil(log2 n) checks, and one if k = 0. */
  lemma {:induction false} SearchCost<C(!new)>(GT: Group<C>, errs: seq<C>)
    requires Abelian(GT) && |errs| > 0
    ensures Calls(GT, errs) <= 1 + 2 * (Failing(GT, errs) * CeilLog2(|errs|))
    ensures Failing(GT, errs) == 0 ==> Calls(GT, errs) == 1
    decreases |errs|
  {
    if Failing(GT, errs) == 0 {
      SomeFail(GT, errs);
    } else if Sum(GT, errs) != GT.zero && |errs| > 1 {
      var l := LeftLen(|errs|);
      SearchCost(GT, errs[..l]);
      SearchCost(GT, errs[l..]);
      assert errs[..l] + errs[l..] == errs;
      FailingAppend(GT, errs[..l], errs[l..]);
      CeilLog2Monotone(|errs| - l, l);
      CostStep(Failing(GT, errs[..l]), Failing(GT, errs[l..]), CeilLog2(l), CeilLog2(|errs| - l));
    } else {
      ProductIsNat(Failing(GT, errs), CeilLog2(|errs|));
    }
  }

  lemma CostStep(k1: nat, k2: nat, a: nat, b: nat)
    requires b <= a && k1 + k2 > 0
    ensures 2 + 2 * (k1 * a) + 2 * (k2 * b) <= 2 * ((k1 + k2) * (1 + a))
  {
    assert k2 * b <= k2 * a;
    assert (k1 + k2) * (1 + a) == k1 + k2 + k1 * a + k2 * a;
  }

  // ------------------------------------------------------------ Entry points

  /** 2^SEC_BITS: weights are drawn from 1 to this bound. */
  const MAX_WEIGHT: nat := 0x1_00000000_00000000_00000000_00000000

  /** The bytes are a point of the subgroup. */
  predicate Readable<A, B, C>(S: Scheme<A, B, C>, bytes: seq<byte>) {
    S.decode(bytes).Some? && Member(S, S.decode(bytes).value)
  }

  /** A readable signature is weighted together with its key, any other becomes the identity. */
  function WeightedSig<A, B, C>(S: Scheme<A, B, C>, bytes: seq<byte>, w: nat): A {
    if Readable(S, bytes) then Times(S.G1, w, S.decode(bytes).value) else S.G1.zero
  }

  function WeightedKey<A, B, C>(S: Scheme<A, B, C>, bytes: seq<byte>, pk: B, w: nat): B {
    if Readable(S, bytes) then Times(S.S2.G, w, pk) else pk
  }

  function StartMark<A, B, C>(S: Scheme<A, B, C>, bytes: seq<byte>): Mark {
    if Readable(S, bytes) then Undefined else Invalid
  }

  /** The inputs of the batch: 48-byte signatures, keys and weights. */
  ghost predicate IsBatch<B>(inputs: seq<seq<byte>>, pks: seq<B>, weights: seq<nat>) {
    && 0 < |inputs| == |pks| == |weights|
    && (forall i :: 0 <= i < |inputs| ==> |inputs[i]| == SIGNATURE_LEN)
    && (forall i :: 0 <= i < |weights| ==> 0 < weights[i] <= MAX_WEIGHT)
  }

  ghost function WeightedSigs<A, B, C>(S: Scheme<A, B, C>, inputs: seq<seq<byte>>, weights: seq<nat>): (s: seq<A>)
    requires |inputs| == |weights|
    ensures |s| == |inputs| && forall i :: 0 <= i < |inputs| ==> s[i] == WeightedSig(S, inputs[i], weights[i])
  {
    seq(|inputs|, (i: nat) requires i < |inputs| => WeightedSig(S, inputs[i], weights[i]))
  }

  ghost function WeightedKeys<A, B, C>(
      S: Scheme<A, B, C>, inputs: seq<seq<byte>>, pks: seq<B>, weights: seq<nat>): (s: seq<B>)
    requires |inputs| == |weights| == |pks|
    ensures |s| == |inputs| && forall i :: 0 <= i < |inputs| ==> s[i] == WeightedKey(S, inputs[i], pks[i], weights[i])
  {
    seq(|inputs|, (i: nat) requires i < |inputs| => WeightedKey(S, inputs[i], pks[i], weights[i]))
  }

  ghost function StartMarks<A, B, C>(S: Scheme<A, B, C>, inputs: seq<seq<byte>>): (s: seq<Mark>)
    ensures |s| == |inputs| && forall i :: 0 <= i < |inputs| ==> s[i] == StartMark(S, inputs[i])
  {
    seq(|inputs|, (i: nat) requires i < |inputs| => StartMark(S, inputs[i]))
  }

  /** The weighted errors of a batch. */
  ghost function BatchErrors<A, B, C>(
      S: Scheme<A, B, C>, inputs: seq<seq<byte>>, pks: seq<B>, weights: seq<nat>, H: A): (errs: seq<C>)
    requires |inputs| == |weights| == |pks|
    ensures |errs| == |inputs|
  {
    Errors(S, WeightedSigs(S, inputs, weights), WeightedKeys(S, inputs, pks, weights), H)
  }

  /** bls_batchVerify, on the concatenated signatures. */
  method BatchVerifyAll<A(!new), B(!new), C(!new)>(
      S: Scheme<A, B, C>, results: array<Mark>, pksInput: seq<B>, flat: seq<byte>, H: A, weights: seq<nat>,
      ghost inputs: seq<seq<byte>>)
      returns (ghost calls: nat)
    requires ValidScheme(S) && IsBatch(inputs, pksInput, weights)
    requires flat == Flatten(inputs) && results.Length == |inputs|
    modifies results
    ensures AreVerdicts(S.GT, BatchErrors(S, inputs, pksInput, weights, H), StartMarks(S, inputs), results[..])
    ensures calls == Calls(S.GT, BatchErrors(S, inputs, pksInput, weights, H))
  {
    var sigs, pks := WeightAll(S, results, pksInput, flat, weights, inputs);
    var root := BuildTree(S, pks, sigs);
    ghost var marks, v := results[..], [];
    calls, v := BatchVerifyTree(S, root, results.Length, results, 0, H, pks, sigs, marks);
    WrittenWhole(marks, results[..], v);
  }

  lemma WrittenWhole(a: seq<Mark>, b: seq<Mark>, v: seq<Mark>)
    requires Written(a, b, 0, v) && |v| == |a|
    ensures b == v
  {
  }

  /** The loop that reads and weights the inputs. */
  method WeightAll<A(!new), B(!new), C(!new)>(
      S: Scheme<A, B, C>, results: array<Mark>, pksInput: seq<B>, flat: seq<byte>, weights: seq<nat>,
      ghost inputs: seq<seq<byte>>)
      returns (sigs: seq<A>, pks: seq<B>)
    requires IsBatch(inputs, pksInput, weights) && flat == Flatten(inputs) && results.Length == |inputs|
    modifies results
    ensures sigs == WeightedSigs(S, inputs, weights) && pks == WeightedKeys(S, inputs, pksInput, weights)
    ensures results[..] == StartMarks(S, inputs)
  {
    sigs, pks := [], [];
    for i := 0 to results.Length
      invariant |sigs| == |pks| == i
      invariant forall k :: 0 <= k < i ==> sigs[k] == WeightedSig(S, inputs[k], weights[k])
      invariant forall k :: 0 <= k < i ==> pks[k] == WeightedKey(S, inputs[k], pksInput[k], weights[k])
      invariant forall k :: 0 <= k < i ==> results[k] == StartMark(S, inputs[k])
    {
      InputSlice(inputs, flat, i);
      var sig, pk, mark := WeightOne(S, ShareSlice(flat, i), pksInput[i], weights[i]);
      sigs, pks := sigs + [sig], pks + [pk];
      results[i] := mark;
    }
  }

  method WeightOne<A(!new), B(!new), C(!new)>(S: Scheme<A, B, C>, bytes: seq<byte>, pkInput: B, weight: nat)
      returns (sig: A, pk: B, mark: Mark)
    ensures sig == WeightedSig(S, bytes, weight) && pk == WeightedKey(S, bytes, pkInput, weight)
    ensures mark == StartMark(S, bytes)
  {
    var p := S.decode(bytes);
    if p == None || !Member(S, p.value) {
      sig, pk, mark := S.G1.zero, pkInput, Invalid;
    } else {
      sig, pk, mark := Times(S.G1, weight, p.value), Times(S.S2.G, weight, pkInput), Undefined;
    }
  }

  lemma InputSlice(inputs: seq<seq<byte>>, flat: seq<byte>, i: nat)
    requires i < |inputs| && flat == Flatten(inputs) && forall j :: 0 <= j < |inputs| ==> |inputs[j]| == SIGNATURE_LEN
    ensures (i + 1) * SIGNATURE_LEN <= |flat| && ShareSlice(flat, i) == inputs[i]
  {
    FlattenSlice(inputs, [], |inputs|, i);
    assert Flatten(inputs) + [] == flat;
  }

  /** What the Go layer hands over: a signature of the wrong length or under the identity key is replaced. */
  function Handed<A, B, C>(S: Scheme<A, B, C>, pk: B, sig: seq<byte>, bad: seq<byte>): seq<byte> {
    if |sig| != SIGNATURE_LEN || pk == S.S2.G.zero then bad else sig
  }

  ghost function HandedAll<A, B, C>(
      S: Scheme<A, B, C>, pks: seq<B>, sigs: seq<seq<byte>>, bad: seq<byte>): (s: seq<seq<byte>>)
    requires |pks| == |sigs|
    ensures |s| == |sigs| && forall i :: 0 <= i < |sigs| ==> s[i] == Handed(S, pks[i], sigs[i], bad)
  {
    seq(|sigs|, (i: nat) requires i < |sigs| => Handed(S, pks[i], sigs[i], bad))
  }

  datatype BatchResult = EmptyList | Mismatch | Failed | Verified(valid: seq<bool>)

  /** BatchVerifyBLSSignaturesOneMessage; `bad` is a signature with an invalid header. */
  method BatchVerifyOneMessage<A(!new), B(!new), C(!new)>(
      S: Scheme<A, B, C>, pks: seq<B>, sigs: seq<seq<byte>>, H: A, bad: seq<byte>, weights: seq<nat>)
      returns (out: BatchResult)
    requires ValidScheme(S) && Member(S, H) && |bad| == SIGNATURE_LEN && S.decode(bad) == None
    requires |weights| == |pks| && forall i :: 0 <= i < |weights| ==> 0 < weights[i] <= MAX_WEIGHT
    ensures out == EmptyList <==> |pks| == 0
    ensures out == Mismatch <==> |pks| != 0 && |pks| != |sigs|
    ensures out != Failed
    ensures out.Verified? ==>
      |out.valid| == |sigs| && forall i :: 0 <= i < |sigs| && Verifies(S, pks[i], sigs[i], H) ==> out.valid[i]
    ensures out.Verified? ==>
      ((forall i :: 0 <= i < |sigs| ==> out.valid[i] == Verifies(S, pks[i], sigs[i], H))
       <==> var inputs := HandedAll(S, pks, sigs, bad);
            NoCancellation(S.GT, BatchErrors(S, inputs, pks, weights, H), StartMarks(S, inputs)))
  {
    if |pks| == 0 {
      return EmptyList;
    }
    if |pks| != |sigs| {
      return Mismatch;
    }
    ghost var inputs := HandedAll(S, pks, sigs, bad);
    var flat := FlattenHanded(S, pks, sigs, bad);
    var results := new Mark[|sigs|](i => Undefined);
    ghost var calls := BatchVerifyAll(S, results, pks, flat, H, weights, inputs);
    BatchSound(S, pks, sigs, H, bad, weights, results[..]);
    BatchExact(S, pks, sigs, H, bad, weights, results[..]);
    var settled, valid := ReadResults(results);
    out := if settled then Verified(valid) else Failed;
  }

  /** The conversion of the buffer to booleans; an unsettled entry is an error. */
  method ReadResults(results: array<Mark>) returns (settled: bool, valid: seq<bool>)
    ensures settled <==> forall k :: 0 <= k < results.Length ==> results[k] != Undefined
    ensures settled ==> |valid| == results.Length
    ensures settled ==> forall k :: 0 <= k < results.Length ==> valid[k] == (results[k] == Valid)
  {
    valid := [];
    for i := 0 to results.Length
      invariant |valid| == i && forall k :: 0 <= k < i ==> results[k] != Undefined && valid[k] == (results[k] == Valid)
    {
      if results[i] != Valid && results[i] != Invalid {
        return false, valid;
      }
      valid := valid + [results[i] == Valid];
    }
    settled := true;
  }

  method FlattenHanded<A(!new), B(!new), C(!new)>(S: Scheme<A, B, C>, pks: seq<B>, sigs: seq<seq<byte>>, bad: seq<byte>)
      returns (flat: seq<byte>)
    requires |pks| == |sigs|
    ensures flat == Flatten(HandedAll(S, pks, sigs, bad))
  {
    ghost var inputs := HandedAll(S, pks, sigs, bad);
    flat := [];
    for i := 0 to |pks|
      invariant flat == Flatten(inputs[..i])
    {
      assert inputs[..i + 1][..i] == inputs[..i];
      if |sigs[i]| != SIGNATURE_LEN || pks[i] == S.S2.G.zero {
        flat := flat + bad;
      } else {
        flat := flat + sigs[i];
      }
    }
    assert inputs[..|pks|] == inputs;
  }

  /** One entry: not rejected up front and without error exactly when the signature verifies. */
  lemma EntryExact<A(!new), B(!new), C(!new)>(S: Scheme<A, B, C>, pk: B, sig: seq<byte>, H: A, bad: seq<byte>, w: nat)
    requires ValidScheme(S) && Member(S, H) && S.decode(bad) == None && 0 < w <= MAX_WEIGHT
    ensures var b := Handed(S, pk, sig, bad);
      StartMark(S, b) == Undefined && Error(S, WeightedSig(S, b, w), WeightedKey(S, b, pk, w), H) == S.GT.zero <==>
        Verifies(S, pk, sig, H)
    ensures var b := Handed(S, pk, sig, bad);
      StartMark(S, b) == Invalid ==>
        (Error(S, WeightedSig(S, b, w), WeightedKey(S, b, pk, w), H) == S.GT.zero <==> S.e(H, pk) == S.GT.zero)
  {
    var b := Handed(S, pk, sig, bad);
    if Readable(S, b) {
      WeightKeepsError(S, w, S.decode(b).value, pk, H);
    } else {
      ErrorZero(S, S.G1.zero, pk, H);
      BilinearZero(S.G1, S.S2.G, S.GT, S.e, S.G1.zero, S.S2.g);
    }
  }

  ghost predicate BatchVerdicts<A, B, C>(
      S: Scheme<A, B, C>, pks: seq<B>, sigs: seq<seq<byte>>, H: A, bad: seq<byte>, weights: seq<nat>, v: seq<Mark>)
  {
    && 0 < |pks| == |sigs| == |weights| == |v|
    && (forall i :: 0 <= i < |weights| ==> 0 < weights[i] <= MAX_WEIGHT)
    && var inputs := HandedAll(S, pks, sigs, bad);
       AreVerdicts(S.GT, BatchErrors(S, inputs, pks, weights, H), StartMarks(S, inputs), v)
  }

  /** Every verdict is settled, and every signature that verifies is reported valid. */
  lemma BatchSound<A(!new), B(!new), C(!new)>(
      S: Scheme<A, B, C>, pks: seq<B>, sigs: seq<seq<byte>>, H: A, bad: seq<byte>, weights: seq<nat>, v: seq<Mark>)
    requires ValidScheme(S) && Member(S, H) && S.decode(bad) == None && BatchVerdicts(S, pks, sigs, H, bad, weights, v)
    ensures forall i :: 0 <= i < |v| ==> v[i] != Undefined && (Verifies(S, pks[i], sigs[i], H) ==> v[i] == Valid)
  {
    var inputs := HandedAll(S, pks, sigs, bad);
    var errs, marks := BatchErrors(S, inputs, pks, weights, H), StartMarks(S, inputs);
    forall i | 0 <= i < |v|
      ensures v[i] != Undefined && (Verifies(S, pks[i], sigs[i], H) ==> v[i] == Valid)
    {
      EntryExact(S, pks[i], sigs[i], H, bad, weights[i]);
      SearchSound(S.GT, errs, marks, i);
    }
  }

  /** The verdicts are those of one-by-one verification exactly when no accepted part hides cancelling errors. */
  lemma BatchExact<A(!new), B(!new), C(!new)>(
      S: Scheme<A, B, C>, pks: seq<B>, sigs: seq<seq<byte>>, H: A, bad: seq<byte>, weights: seq<nat>, v: seq<Mark>)
    requires ValidScheme(S) && Member(S, H) && S.decode(bad) == None && BatchVerdicts(S, pks, sigs, H, bad, weights, v)
    ensures var inputs := HandedAll(S, pks, sigs, bad);
      (forall i :: 0 <= i < |v| ==> (v[i] == Valid <==> Verifies(S, pks[i], sigs[i], H)))
      <==> NoCancellation(S.GT, BatchErrors(S, inputs, pks, weights, H), StartMarks(S, inputs))
  {
    var inputs := HandedAll(S, pks, sigs, bad);
    var errs, marks := BatchErrors(S, inputs, pks, weights, H), StartMarks(S, inputs);
    SearchExact(S.GT, errs, marks);
    var w := OneByOne(S.GT, errs, marks);
    forall i | 0 <= i < |v|
      ensures (w[i] == Valid <==> Verifies(S, pks[i], sigs[i], H)) && w[i] != Undefined && v[i] != Undefined
    {
      EntryExact(S, pks[i], sigs[i], H, bad, weights[i]);
      SearchSound(S.GT, errs, marks, i);
    }
    assert v == w <==> forall i :: 0 <= i < |v| ==> (v[i] == Valid <==> w[i] == Valid);
  }
}
