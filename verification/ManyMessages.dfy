// Verification of an aggregated signature of many messages under many keys
// (crypto/bls_multisig.go, crypto/bls_core.c): the pairs are grouped by hash or
// by key, whichever needs fewer pairings, and both decide the ungrouped product.
module ManyMessages {
  import opened Groups
  import opened Bytes
  import opened Polynomials
  import opened Bls

  // ---------------------------------------------------------- Grouped sums

  /** The sum of f over a set. */
  ghost function GroupSum<X(!new), T>(G: Group<T>, f: X -> T, Z: set<X>): T
    decreases |Z|
  {
    if Z == {} then G.zero else
      var a :| a in Z;
      G.add(f(a), GroupSum(G, f, Z - {a}))
  }

  lemma {:induction false} GroupSumRemove<X(!new), T(!new)>(G: Group<T>, f: X -> T, Z: set<X>, a: X)
    requires Abelian(G) && a in Z
    ensures GroupSum(G, f, Z) == G.add(f(a), GroupSum(G, f, Z - {a}))
    decreases |Z|
  {
    var b :| b in Z && GroupSum(G, f, Z) == G.add(f(b), GroupSum(G, f, Z - {b}));
    if a != b {
      GroupSumRemove(G, f, Z - {b}, a);
      GroupSumRemove(G, f, Z - {a}, b);
      assert Z - {a} - {b} == Z - {b} - {a};
      var rest := GroupSum(G, f, Z - {a} - {b});
      assert LawsAt(G, f(a), f(b), rest);
      assert LawsAt(G, f(b), f(a), rest);
    }
  }

  lemma {:induction false} GroupSumSame<X(!new), T(!new)>(G: Group<T>, f: X -> T, f': X -> T, Z: set<X>)
    requires Abelian(G) && forall a :: a in Z ==> f(a) == f'(a)
    ensures GroupSum(G, f, Z) == GroupSum(G, f', Z)
    decreases |Z|
  {
    if Z != {} {
      var a :| a in Z;
      GroupSumRemove(G, f, Z, a);
      GroupSumRemove(G, f', Z, a);
      GroupSumSame(G, f, f', Z - {a});
    }
  }

  /** The values of one group. */
  ghost function ValuesOf<X, Y, T>(g: (X, Y) -> T, x: X, ys: seq<Y>): (v: seq<T>)
    ensures |v| == |ys| && forall i :: 0 <= i < |ys| ==> v[i] == g(x, ys[i])
  {
    seq(|ys|, (i: nat) requires i < |ys| => g(x, ys[i]))
  }

  function Lookup<X, Y>(m: map<X, seq<Y>>, x: X): seq<Y> {
    if x in m then m[x] else []
  }

  /** The sum of one group of a map. */
  ghost function GroupTerm<X, Y, T>(G: Group<T>, g: (X, Y) -> T, m: map<X, seq<Y>>): X -> T {
    (x: X) => Sum(G, ValuesOf(g, x, Lookup(m, x)))
  }

  /** The sum over all groups of a map. */
  ghost function MapTotal<X(!new), Y, T>(G: Group<T>, g: (X, Y) -> T, m: map<X, seq<Y>>): T {
    GroupSum(G, GroupTerm(G, g, m), m.Keys)
  }

  /** Appending y to the group of x adds g(x, y) to the total. */
  lemma AppendToGroup<X(!new), Y, T(!new)>(G: Group<T>, g: (X, Y) -> T, m: map<X, seq<Y>>, x: X, y: Y)
    requires Abelian(G)
    ensures MapTotal(G, g, m[x := Lookup(m, x) + [y]]) == G.add(MapTotal(G, g, m), g(x, y))
  {
    var m' := m[x := Lookup(m, x) + [y]];
    var f, f' := GroupTerm(G, g, m), GroupTerm(G, g, m');
    var Z := m'.Keys - {x};
    GroupSumRemove(G, f', m'.Keys, x);
    GroupSumSame(G, f, f', Z);
    assert ValuesOf(g, x, Lookup(m', x)) == ValuesOf(g, x, Lookup(m, x)) + [g(x, y)];
    SumSnoc(G, ValuesOf(g, x, Lookup(m, x)), g(x, y));
    assert m.Keys - {x} == Z;
    RestOfMap(G, g, m, x);
    assert LawsAt(G, f(x), g(x, y), GroupSum(G, f, Z));
    assert LawsAt(G, g(x, y), GroupSum(G, f, Z), GroupSum(G, f, Z));
    assert LawsAt(G, f(x), GroupSum(G, f, Z), g(x, y));
  }

  /** The group of x and the others; a missing group counts as empty. */
  lemma RestOfMap<X(!new), Y, T(!new)>(G: Group<T>, g: (X, Y) -> T, m: map<X, seq<Y>>, x: X)
    requires Abelian(G)
    ensures var f := GroupTerm(G, g, m);
      MapTotal(G, g, m) == G.add(f(x), GroupSum(G, f, m.Keys - {x}))
  {
    var f := GroupTerm(G, g, m);
    if x in m {
      GroupSumRemove(G, f, m.Keys, x);
    } else {
      assert m.Keys - {x} == m.Keys;
      assert ValuesOf(g, x, Lookup(m, x)) == [];
      ZeroLeft(G, GroupSum(G, f, m.Keys));
    }
  }

  /** The sum of each of a list of groups. */
  ghost function GroupSums<X, Y, T>(G: Group<T>, g: (X, Y) -> T, xs: seq<X>, groups: seq<seq<Y>>): (v: seq<T>)
    requires |xs| == |groups|
    ensures |v| == |xs| && forall i :: 0 <= i < |xs| ==> v[i] == Sum(G, ValuesOf(g, xs[i], groups[i]))
  {
    seq(|xs|, (i: nat) requires i < |xs| => Sum(G, ValuesOf(g, xs[i], groups[i])))
  }

  /** `order` lists the elements of Z, each once. */
  ghost predicate Lists<X(!new)>(order: seq<X>, Z: set<X>) {
    && (forall i, j :: 0 <= i < j < |order| ==> order[i] != order[j])
    && (forall x :: x in order <==> x in Z)
  }

  ghost function InOrder<X, T>(f: X -> T, order: seq<X>): (v: seq<T>)
    ensures |v| == |order| && forall i :: 0 <= i < |order| ==> v[i] == f(order[i])
  {
    seq(|order|, (i: nat) requires i < |order| => f(order[i]))
  }

  /** Whatever the order of the keys, the sum is that of the set. */
  lemma {:induction false} SumInOrder<X(!new), T(!new)>(G: Group<T>, f: X -> T, order: seq<X>, Z: set<X>)
    requires Abelian(G) && Lists(order, Z)
    ensures Sum(G, InOrder(f, order)) == GroupSum(G, f, Z)
    decreases |order|
  {
    if order == [] {
      assert Z == {};
    } else {
      var rest := order[1..];
      assert order == [order[0]] + rest;
      assert Lists(rest, Z - {order[0]});
      SumInOrder(G, f, rest, Z - {order[0]});
      GroupSumRemove(G, f, Z, order[0]);
      assert InOrder(f, order)[1..] == InOrder(f, rest);
    }
  }

  // ------------------------------------------------------ The pairing products

  /** pp_map_sim_oatep_k12: the product of the pairings of two lists. */
  function PairProduct<A, B, C>(S: Scheme<A, B, C>, xs: seq<A>, ys: seq<B>): C
    requires |xs| == |ys|
  {
    Sum(S.GT, seq(|xs|, (i: nat) requires i < |xs| => S.e(xs[i], ys[i])))
  }

  lemma ProductHead<A, B, C>(S: Scheme<A, B, C>, x: A, xs: seq<A>, y: B, ys: seq<B>)
    requires |xs| == |ys|
    ensures PairProduct(S, [x] + xs, [y] + ys) == S.GT.add(S.e(x, y), PairProduct(S, xs, ys))
  {
    var v := seq(|xs| + 1, (i: nat) requires i < |xs| + 1 => S.e(([x] + xs)[i], ([y] + ys)[i]));
    var w := seq(|xs|, (i: nat) requires i < |xs| => S.e(xs[i], ys[i]));
    assert v[1..] == w;
    assert v == seq(|[x] + xs|, (i: nat) requires i < |[x] + xs| => S.e(([x] + xs)[i], ([y] + ys)[i]));
  }

  /** The product with e(s, -g2) is one exactly when e(s, g2) equals the rest. */
  lemma ProductDecides<A(!new), B(!new), C(!new)>(S: Scheme<A, B, C>, s: A, X: C)
    requires ValidScheme(S)
    ensures S.GT.add(S.e(s, S.S2.G.neg(S.S2.g)), X) == S.GT.zero <==> S.e(s, S.S2.g) == X
  {
    var u, v := S.e(s, S.S2.g), S.e(s, S.S2.G.neg(S.S2.g));
    PairNegative(S, s, S.S2.g);
    assert LawsAt(S.GT, u, v, X);
    if S.GT.add(v, X) == S.GT.zero {
      CancelLeft(S.GT, v, u, X);
    }
  }

  /** The value of a hash and a key, for groups by hash. */
  ghost function ByHash<A, B, C>(S: Scheme<A, B, C>, toCurve: seq<byte> -> A): (seq<byte>, B) -> C {
    (h: seq<byte>, b: B) => S.e(toCurve(h), b)
  }

  /** The value of a key and a hash, for groups by key. */
  ghost function ByKey<K, A, B, C>(S: Scheme<A, B, C>, toCurve: seq<byte> -> A, point: K -> B): (K, seq<byte>) -> C {
    (k: K, h: seq<byte>) => S.e(toCurve(h), point(k))
  }

  /** The keys of one hash can be summed before pairing. */
  lemma {:induction false} PairSummedKeys<A(!new), B(!new), C(!new)>(
      S: Scheme<A, B, C>, toCurve: seq<byte> -> A, h: seq<byte>, ys: seq<B>)
    requires ValidScheme(S)
    ensures S.e(toCurve(h), Sum(S.S2.G, ys)) == Sum(S.GT, ValuesOf(ByHash(S, toCurve), h, ys))
  {
    var v := ValuesOf(ByHash(S, toCurve), h, ys);
    if ys == [] {
      BilinearZero(S.G1, S.S2.G, S.GT, S.e, toCurve(h), S.S2.g);
    } else {
      PairSummedKeys(S, toCurve, h, ys[1..]);
      assert v[1..] == ValuesOf(ByHash(S, toCurve), h, ys[1..]);
      assert BilinearAt(S.G1, S.S2.G, S.GT, S.e, toCurve(h), toCurve(h), ys[0], Sum(S.S2.G, ys[1..]));
    }
  }

  /** The hashes of one key can be summed before pairing. */
  lemma {:induction false} PairSummedHashes<K, A(!new), B(!new), C(!new)>(
      S: Scheme<A, B, C>, toCurve: seq<byte> -> A, point: K -> B, k: K, hs: seq<seq<byte>>)
    requires ValidScheme(S)
    ensures S.e(Sum(S.G1, InOrder(toCurve, hs)), point(k)) == Sum(S.GT, ValuesOf(ByKey(S, toCurve, point), k, hs))
  {
    var v := ValuesOf(ByKey(S, toCurve, point), k, hs);
    if hs == [] {
      BilinearZero(S.G1, S.S2.G, S.GT, S.e, S.G1.zero, point(k));
    } else {
      PairSummedHashes(S, toCurve, point, k, hs[1..]);
      assert v[1..] == ValuesOf(ByKey(S, toCurve, point), k, hs[1..]);
      assert InOrder(toCurve, hs)[1..] == InOrder(toCurve, hs[1..]);
      var x, rest := toCurve(hs[0]), Sum(S.G1, InOrder(toCurve, hs[1..]));
      assert BilinearAt(S.G1, S.S2.G, S.GT, S.e, x, rest, point(k), point(k));
    }
  }

  // ------------------------------------------------------------- The C layer

  /** The lengths of the items of a list. */
  ghost predicate Lengths<T>(lens: seq<nat>, ss: seq<seq<T>>) {
    |lens| == |ss| && forall i :: 0 <= i < |ss| ==> lens[i] == |ss[i]|
  }

  /** The loop that maps the hashes of a flat buffer to the curve. */
  method MapHashes<A(!new)>(toCurve: seq<byte> -> A, flat: seq<byte>, lens: seq<nat>, ghost hs: seq<seq<byte>>)
      returns (xs: seq<A>)
    requires flat == Flatten(hs) && Lengths(lens, hs)
    ensures xs == InOrder(toCurve, hs)
  {
    xs := [];
    var offset := 0;
    assert hs[..0] == [];
    for i := 0 to |lens|
      invariant offset == Offset(hs, i)
      invariant |xs| == i && forall k :: 0 <= k < i ==> xs[k] == toCurve(hs[k])
    {
      FlattenAt(hs, i);
      xs := xs + [toCurve(flat[offset..offset + lens[i]])];
      offset := offset + lens[i];
    }
  }

  /** The loop that sums consecutive runs of a flat buffer. */
  method SumRuns<T(!new)>(G: Group<T>, flat: seq<T>, counts: seq<nat>, ghost groups: seq<seq<T>>) returns (ys: seq<T>)
    requires Abelian(G) && flat == Flatten(groups) && Lengths(counts, groups)
    ensures |ys| == |groups| && forall i :: 0 <= i < |groups| ==> ys[i] == Sum(G, groups[i])
  {
    ys := [];
    var offset := 0;
    assert groups[..0] == [];
    for i := 0 to |counts|
      invariant offset == Offset(groups, i)
      invariant |ys| == i && forall k :: 0 <= k < i ==> ys[k] == Sum(G, groups[k])
    {
      FlattenAt(groups, i);
      var sum := SumPoints(G, flat[offset..offset + counts[i]]);
      ys := ys + [sum];
      offset := offset + counts[i];
    }
  }

  /** bls_verifyPerDistinctMessage: one pairing per hash. */
  method VerifyPerDistinctMessage<A(!new), B(!new), C(!new)>(
      S: Scheme<A, B, C>, toCurve: seq<byte> -> A, sig: seq<byte>, flatHashes: seq<byte>, lenHashes: seq<nat>,
      pksPerHash: seq<nat>, pks: seq<B>, ghost hs: seq<seq<byte>>, ghost groups: seq<seq<B>>) returns (ok: bool)
    requires ValidScheme(S) && |hs| == |groups|
    requires flatHashes == Flatten(hs) && Lengths(lenHashes, hs)
    requires pks == Flatten(groups) && Lengths(pksPerHash, groups)
    ensures ok <==> Accepts(S, sig, Sum(S.GT, GroupSums(S.GT, ByHash(S, toCurve), hs, groups)))
  {
    var s := S.decode(sig);
    if s == None || !Member(S, s.value) {
      return false;
    }
    var xs := MapHashes(toCurve, flatHashes, lenHashes, hs);
    var ys := SumRuns(S.S2.G, pks, pksPerHash, groups);
    ok := PairProduct(S, [s.value] + xs, [S.S2.G.neg(S.S2.g)] + ys) == S.GT.zero;
    ProductHead(S, s.value, xs, S.S2.G.neg(S.S2.g), ys);
    ProductDecides(S, s.value, PairProduct(S, xs, ys));
    forall i | 0 <= i < |hs|
      ensures S.e(xs[i], ys[i]) == Sum(S.GT, ValuesOf(ByHash(S, toCurve), hs[i], groups[i]))
    {
      PairSummedKeys(S, toCurve, hs[i], groups[i]);
    }
    assert seq(|xs|, (i: nat) requires i < |xs| => S.e(xs[i], ys[i])) ==
           GroupSums(S.GT, ByHash(S, toCurve), hs, groups);
  }

  /** The signature is a point of the subgroup whose pairing with the generator is the given product. */
  ghost predicate Accepts<A, B, C>(S: Scheme<A, B, C>, sig: seq<byte>, total: C) {
    S.decode(sig).Some? && Member(S, S.decode(sig).value) && S.e(S.decode(sig).value, S.S2.g) == total
  }

  ghost predicate IsHashSum<A>(G: Group<A>, toCurve: seq<byte> -> A, group: seq<seq<byte>>, sum: A) {
    sum == Sum(G, InOrder(toCurve, group))
  }

  /** The inner loop of bls_verifyPerDistinctKey: the hashes of one key, mapped and summed. */
  method SumHashes<A(!new)>(
      G: Group<A>, toCurve: seq<byte> -> A, flat: seq<byte>, lens: seq<nat>, count: nat, dataOffset: nat,
      indexOffset: nat, ghost all: seq<seq<byte>>, ghost group: seq<seq<byte>>)
      returns (sum: A, dataOffset': nat)
    requires Abelian(G) && flat == Flatten(all) && Lengths(lens, all) && indexOffset + count <= |all|
    requires dataOffset == Offset(all, indexOffset) && all[indexOffset..indexOffset + count] == group
    ensures IsHashSum(G, toCurve, group, sum)
    ensures dataOffset' == Offset(all, indexOffset + count)
  {
    var tmp: seq<A> := [];
    dataOffset' := dataOffset;
    for j := 0 to count
      invariant dataOffset' == Offset(all, indexOffset + j)
      invariant |tmp| == j && forall k :: 0 <= k < j ==> tmp[k] == toCurve(all[indexOffset + k])
    {
      FlattenAt(all, indexOffset + j);
      tmp := tmp + [toCurve(flat[dataOffset'..dataOffset' + lens[indexOffset + j]])];
      dataOffset' := dataOffset' + lens[indexOffset + j];
    }
    assert tmp == InOrder(toCurve, group);
    sum := SumPoints(G, tmp);
  }

  /** The outer loop of bls_verifyPerDistinctKey. */
  method SumHashesPerKey<A(!new)>(
      G: Group<A>, toCurve: seq<byte> -> A, hashesPerPk: seq<nat>, flatHashes: seq<byte>, lenHashes: seq<nat>,
      ghost groups: seq<seq<seq<byte>>>)
      returns (xs: seq<A>)
    requires Abelian(G) && Lengths(hashesPerPk, groups)
    requires flatHashes == Flatten(Flatten(groups)) && Lengths(lenHashes, Flatten(groups))
    ensures |xs| == |groups| && forall i :: 0 <= i < |groups| ==> IsHashSum(G, toCurve, groups[i], xs[i])
  {
    ghost var all := Flatten(groups);
    xs := [];
    var dataOffset, indexOffset := 0, 0;
    assert groups[..0] == [] && all[..0] == [];
    for i := 0 to |hashesPerPk|
      invariant indexOffset == Offset(groups, i) <= |all| && dataOffset == Offset(all, indexOffset)
      invariant |xs| == i && forall k :: 0 <= k < i ==> IsHashSum(G, toCurve, groups[k], xs[k])
    {
      FlattenAt(groups, i);
      var sum;
      sum, dataOffset := SumHashes(G, toCurve, flatHashes, lenHashes, hashesPerPk[i], dataOffset, indexOffset, all,
        groups[i]);
      xs := xs + [sum];
      indexOffset := indexOffset + hashesPerPk[i];
    }
  }

  /** bls_verifyPerDistinctKey: one pairing per key. */
  method VerifyPerDistinctKey<K, A(!new), B(!new), C(!new)>(
      S: Scheme<A, B, C>, toCurve: seq<byte> -> A, point: K -> B, sig: seq<byte>, pks: seq<B>, hashesPerPk: seq<nat>,
      flatHashes: seq<byte>, lenHashes: seq<nat>, ghost ks: seq<K>, ghost groups: seq<seq<seq<byte>>>)
      returns (ok: bool)
    requires ValidScheme(S) && |ks| == |groups| == |pks| && forall i :: 0 <= i < |ks| ==> pks[i] == point(ks[i])
    requires Lengths(hashesPerPk, groups)
    requires flatHashes == Flatten(Flatten(groups)) && Lengths(lenHashes, Flatten(groups))
    ensures ok <==> Accepts(S, sig, Sum(S.GT, GroupSums(S.GT, ByKey(S, toCurve, point), ks, groups)))
  {
    var s := S.decode(sig);
    if s == None || !Member(S, s.value) {
      return false;
    }
    var xs := SumHashesPerKey(S.G1, toCurve, hashesPerPk, flatHashes, lenHashes, groups);
    ok := PairProduct(S, [s.value] + xs, [S.S2.G.neg(S.S2.g)] + pks) == S.GT.zero;
    ProductHead(S, s.value, xs, S.S2.G.neg(S.S2.g), pks);
    ProductDecides(S, s.value, PairProduct(S, xs, pks));
    forall i | 0 <= i < |ks|
      ensures S.e(xs[i], pks[i]) == Sum(S.GT, ValuesOf(ByKey(S, toCurve, point), ks[i], groups[i]))
    {
      assert IsHashSum(S.G1, toCurve, groups[i], xs[i]);
      PairSummedHashes(S, toCurve, point, ks[i], groups[i]);
    }
    assert seq(|xs|, (i: nat) requires i < |xs| => S.e(xs[i], pks[i])) ==
           GroupSums(S.GT, ByKey(S, toCurve, point), ks, groups);
  }

  // ------------------------------------------------------------ The Go layer

  /** The pairs of the input, ungrouped. */
  ghost function Pairs<K, A, B, C>(
      S: Scheme<A, B, C>, toCurve: seq<byte> -> A, point: K -> B, keys: seq<K>, hashes: seq<seq<byte>>): (v: seq<C>)
    requires |keys| == |hashes|
    ensures |v| == |keys| && forall i :: 0 <= i < |keys| ==> v[i] == S.e(toCurve(hashes[i]), point(keys[i]))
  {
    seq(|keys|, (i: nat) requires i < |keys| => S.e(toCurve(hashes[i]), point(keys[i])))
  }

  /** The two maps group the same pairs. */
  ghost predicate Grouped<K(!new), A, B, C>(
      S: Scheme<A, B, C>, toCurve: seq<byte> -> A, point: K -> B, keys: seq<K>, hashes: seq<seq<byte>>,
      perHash: map<seq<byte>, seq<B>>, perPk: map<K, seq<seq<byte>>>)
    requires |keys| == |hashes|
  {
    && MapTotal(S.GT, ByHash(S, toCurve), perHash) == Sum(S.GT, Pairs(S, toCurve, point, keys, hashes))
    && MapTotal(S.GT, ByKey(S, toCurve, point), perPk) == Sum(S.GT, Pairs(S, toCurve, point, keys, hashes))
  }

  lemma GroupOne<K(!new), A(!new), B(!new), C(!new)>(
      S: Scheme<A, B, C>, toCurve: seq<byte> -> A, point: K -> B, keys: seq<K>, hashes: seq<seq<byte>>,
      perHash: map<seq<byte>, seq<B>>, perPk: map<K, seq<seq<byte>>>, k: K, h: seq<byte>)
    requires Abelian(S.GT) && |keys| == |hashes| && Grouped(S, toCurve, point, keys, hashes, perHash, perPk)
    ensures Grouped(S, toCurve, point, keys + [k], hashes + [h],
                    perHash[h := Lookup(perHash, h) + [point(k)]], perPk[k := Lookup(perPk, k) + [h]])
  {
    AppendToGroup(S.GT, ByHash(S, toCurve), perHash, h, point(k));
    AppendToGroup(S.GT, ByKey(S, toCurve, point), perPk, k, h);
    var v := Pairs(S, toCurve, point, keys, hashes);
    assert Pairs(S, toCurve, point, keys + [k], hashes + [h]) == v + [S.e(toCurve(h), point(k))];
    SumSnoc(S.GT, v, S.e(toCurve(h), point(k)));
  }

  ghost predicate NoIdentity<K, A, B, C>(S: Scheme<A, B, C>, point: K -> B, keys: seq<K>) {
    forall i :: 0 <= i < |keys| ==> point(keys[i]) != S.S2.G.zero
  }

  ghost predicate IsPrefix<T>(s: seq<T>, t: seq<T>, i: nat) {
    i <= |t| && s == t[..i]
  }

  lemma PrefixNext<T>(s: seq<T>, t: seq<T>, i: nat)
    requires IsPrefix(s, t, i) && i < |t|
    ensures IsPrefix(s + [t[i]], t, i + 1)
  {
  }

  method AddPair<K(!new, ==), A(!new), B(!new), C(!new)>(
      ghost S: Scheme<A, B, C>, ghost toCurve: seq<byte> -> A, point: K -> B,
      perHash: map<seq<byte>, seq<B>>, perPk: map<K, seq<seq<byte>>>,
      k: K, h: seq<byte>, ghost keys: seq<K>, ghost hashes: seq<seq<byte>>)
      returns (perHash': map<seq<byte>, seq<B>>, perPk': map<K, seq<seq<byte>>>)
    requires Abelian(S.GT) && |keys| == |hashes| && Grouped(S, toCurve, point, keys, hashes, perHash, perPk)
    ensures Grouped(S, toCurve, point, keys + [k], hashes + [h], perHash', perPk')
  {
    perHash' := perHash[h := Lookup(perHash, h) + [point(k)]];
    perPk' := perPk[k := Lookup(perPk, k) + [h]];
    GroupOne(S, toCurve, point, keys, hashes, perHash, perPk, k, h);
  }

  /** The loop that fills both maps; the identity key ends it. */
  method FillMaps<K(!new, ==), A(!new), B(!new), C(!new)>(
      S: Scheme<A, B, C>, ghost toCurve: seq<byte> -> A, point: K -> B, keys: seq<K>, hashes: seq<seq<byte>>)
      returns (identity: bool, perHash: map<seq<byte>, seq<B>>, perPk: map<K, seq<seq<byte>>>)
    requires Abelian(S.GT) && |keys| == |hashes|
    ensures identity <==> !NoIdentity(S, point, keys)
    ensures !identity ==> Grouped(S, toCurve, point, keys, hashes, perHash, perPk)
  {
    perHash, perPk := map[], map[];
    ghost var ks: seq<K>, hs: seq<seq<byte>> := [], [];
    for i := 0 to |keys|
      invariant IsPrefix(ks, keys, i) && IsPrefix(hs, hashes, i) && NoIdentity(S, point, ks)
      invariant Grouped(S, toCurve, point, ks, hs, perHash, perPk)
    {
      if point(keys[i]) == S.S2.G.zero {
        return true, perHash, perPk;
      }
      PrefixNext(ks, keys, i);
      PrefixNext(hs, hashes, i);
      perHash, perPk := AddPair(S, toCurve, point, perHash, perPk, keys[i], hashes[i], ks, hs);
      ks, hs := ks + [keys[i]], hs + [hashes[i]];
    }
    assert ks == keys && hs == hashes;
    identity := false;
  }

  /** `order` and `groups` list a map. */
  ghost predicate ListsMap<X(!new), Y>(order: seq<X>, groups: seq<seq<Y>>, m: map<X, seq<Y>>) {
    && |order| == |groups| && Lists(order, m.Keys)
    && forall i :: 0 <= i < |order| ==> order[i] in m && groups[i] == m[order[i]]
  }

  /** The listed groups sum to the total of the map, whatever the order. */
  lemma ListedTotal<X(!new), Y, T(!new)>(
      G: Group<T>, g: (X, Y) -> T, order: seq<X>, groups: seq<seq<Y>>, m: map<X, seq<Y>>)
    requires Abelian(G) && ListsMap(order, groups, m)
    ensures Sum(G, GroupSums(G, g, order, groups)) == MapTotal(G, g, m)
  {
    SumInOrder(G, GroupTerm(G, g, m), order, m.Keys);
    assert GroupSums(G, g, order, groups) == InOrder(GroupTerm(G, g, m), order);
  }

  /** The loop over a map, in whichever order it yields the keys. */
  method ListMap<X(!new, ==), Y(!new)>(m: map<X, seq<Y>>)
      returns (order: seq<X>, groups: seq<seq<Y>>, counts: seq<nat>, all: seq<Y>)
    ensures ListsMap(order, groups, m) && Lengths(counts, groups) && all == Flatten(groups)
  {
    order, groups, counts, all := [], [], [], [];
    var left := m.Keys;
    while left != {}
      invariant left <= m.Keys && Lists(order, m.Keys - left)
      invariant |order| == |groups| && forall i :: 0 <= i < |order| ==> order[i] in m && groups[i] == m[order[i]]
      invariant Lengths(counts, groups) && all == Flatten(groups)
      decreases |left|
    {
      var x :| x in left;
      left := left - {x};
      assert (groups + [m[x]])[..|groups|] == groups;
      order, groups, counts, all := order + [x], groups + [m[x]], counts + [|m[x]|], all + m[x];
    }
  }

  /** The concatenation of a list of hashes with its lengths. */
  method FlattenHashes(hs: seq<seq<byte>>) returns (flat: seq<byte>, lens: seq<nat>)
    ensures flat == Flatten(hs) && Lengths(lens, hs)
  {
    flat, lens := [], [];
    assert hs[..0] == [];
    for i := 0 to |hs|
      invariant flat == Flatten(hs[..i]) && |lens| == i && forall k :: 0 <= k < i ==> lens[k] == |hs[k]|
    {
      assert hs[..i + 1][..i] == hs[..i];
      flat, lens := flat + hs[i], lens + [|hs[i]|];
    }
    assert hs[..|hs|] == hs;
  }

  datatype ManyResult = EmptyList | InvalidInputs | Checked(valid: bool)

  /** The ungrouped verification equation. */
  ghost predicate VerifiesMany<K, A, B, C>(
      S: Scheme<A, B, C>, toCurve: seq<byte> -> A, point: K -> B, keys: seq<K>, sig: seq<byte>, hashes: seq<seq<byte>>)
    requires |keys| == |hashes|
  {
    && |sig| == SIGNATURE_LEN
    && NoIdentity(S, point, keys)
    && Accepts(S, sig, Sum(S.GT, Pairs(S, toCurve, point, keys, hashes)))
  }

  /**
   VerifyBLSSignatureManyMessages. Keys are map keys by representation: equal representations
   are equal points, the converse need not hold.
   */
  method VerifyManyMessages<K(!new, ==), A(!new), B(!new), C(!new)>(
      S: Scheme<A, B, C>, toCurve: seq<byte> -> A, point: K -> B, keys: seq<K>, sig: seq<byte>, hashes: seq<seq<byte>>)
      returns (out: ManyResult)
    requires ValidScheme(S)
    ensures out == EmptyList <==> |sig| == SIGNATURE_LEN && |keys| == 0
    ensures out == InvalidInputs <==> |sig| == SIGNATURE_LEN && |keys| != 0 && |keys| != |hashes|
    ensures out.Checked? ==>
      (out.valid <==> |sig| == SIGNATURE_LEN && VerifiesMany(S, toCurve, point, keys, sig, hashes))
  {
    if |sig| != SIGNATURE_LEN {
      return Checked(false);
    }
    if |keys| == 0 {
      return EmptyList;
    }
    if |keys| != |hashes| {
      return InvalidInputs;
    }
    var identity, perHash, perPk := FillMaps(S, toCurve, point, keys, hashes);
    if identity {
      return Checked(false);
    }
    var ok;
    if |perHash| < |perPk| {
      ok := CheckByHash(S, toCurve, sig, perHash);
    } else {
      ok := CheckByKey(S, toCurve, point, sig, perPk);
    }
    out := Checked(ok);
  }

  method CheckByHash<A(!new), B(!new), C(!new)>(
      S: Scheme<A, B, C>, toCurve: seq<byte> -> A, sig: seq<byte>, perHash: map<seq<byte>, seq<B>>) returns (ok: bool)
    requires ValidScheme(S)
    ensures ok <==> Accepts(S, sig, MapTotal(S.GT, ByHash(S, toCurve), perHash))
  {
    var order, groups, counts, all := ListMap(perHash);
    var flat, lens := FlattenHashes(order);
    ok := VerifyPerDistinctMessage(S, toCurve, sig, flat, lens, counts, all, order, groups);
    ListedTotal(S.GT, ByHash(S, toCurve), order, groups, perHash);
  }

  method CheckByKey<K(!new, ==), A(!new), B(!new), C(!new)>(
      S: Scheme<A, B, C>, toCurve: seq<byte> -> A, point: K -> B, sig: seq<byte>, perPk: map<K, seq<seq<byte>>>)
      returns (ok: bool)
    requires ValidScheme(S)
    ensures ok <==> Accepts(S, sig, MapTotal(S.GT, ByKey(S, toCurve, point), perPk))
  {
    var order, groups, counts, all := ListMap(perPk);
    var flat, lens := FlattenHashes(all);
    var pks := seq(|order|, (i: nat) requires i < |order| => point(order[i]));
    ok := VerifyPerDistinctKey(S, toCurve, point, sig, pks, counts, flat, lens, order, groups);
    ListedTotal(S.GT, ByKey(S, toCurve, point), order, groups, perPk);
  }

  // ------------------------------------------------------- One message, one key

  /** With a single message the ungrouped product is that of the aggregated key. */
  lemma OneMessageProduct<K(!new), A(!new), B(!new), C(!new)>(
      S: Scheme<A, B, C>, toCurve: seq<byte> -> A, point: K -> B, keys: seq<K>, hashes: seq<seq<byte>>, h: seq<byte>)
    requires ValidScheme(S) && |keys| == |hashes| && forall i :: 0 <= i < |hashes| ==> hashes[i] == h
    ensures Sum(S.GT, Pairs(S, toCurve, point, keys, hashes)) == S.e(toCurve(h), Sum(S.S2.G, InOrder(point, keys)))
  {
    PairSummedKeys(S, toCurve, h, InOrder(point, keys));
    assert Pairs(S, toCurve, point, keys, hashes) == ValuesOf(ByHash(S, toCurve), h, InOrder(point, keys));
  }

  /** The secrets of the keys. */
  ghost predicate HasSecrets<K, A, B, C>(S: Scheme<A, B, C>, point: K -> B, keys: seq<K>, xs: seq<nat>) {
    |xs| == |keys| && forall i :: 0 <= i < |keys| ==> point(keys[i]) == KeyOf(S, xs[i])
  }

  lemma {:induction false} AggregateSecret<K(!new), A(!new), B(!new), C(!new)>(
      S: Scheme<A, B, C>, point: K -> B, keys: seq<K>, xs: seq<nat>)
    requires ValidScheme(S) && HasSecrets(S, point, keys, xs)
    ensures Sum(S.S2.G, InOrder(point, keys)) == KeyOf(S, SumScalars(xs))
  {
    if keys != [] {
      AggregateSecret(S, point, keys[1..], xs[1..]);
      assert InOrder(point, keys)[1..] == InOrder(point, keys[1..]);
      SumScalarsHead(xs);
      TimesAdd(S.S2.G, xs[0], SumScalars(xs[1..]), S.S2.g);
    }
  }

  lemma {:induction false} SumScalarsHead(xs: seq<nat>)
    requires xs != []
    ensures SumScalars(xs) == xs[0] + SumScalars(xs[1..])
  {
    if |xs| > 1 {
      SumScalarsHead(xs[..|xs| - 1]);
      assert xs[..|xs| - 1][1..] == xs[1..][..|xs| - 2];
    }
  }

  /**
   Many-message verification of a single message gives the answer of the aggregated key for every
   signature if and only if an identity key occurs exactly when the aggregate is the identity.
   */
  lemma OneMessageIff<K(!new), A(!new), B(!new), C(!new)>(
      S: Scheme<A, B, C>, toCurve: seq<byte> -> A, point: K -> B, keys: seq<K>, hashes: seq<seq<byte>>, h: seq<byte>,
      xs: seq<nat>)
    requires ValidScheme(S) && Member(S, toCurve(h)) && HasSecrets(S, point, keys, xs)
    requires |keys| == |hashes| && forall i :: 0 <= i < |hashes| ==> hashes[i] == h
    ensures var key := Sum(S.S2.G, InOrder(point, keys));
      (forall sig :: VerifiesMany(S, toCurve, point, keys, sig, hashes) == Verifies(S, key, sig, toCurve(h)))
      <==> (NoIdentity(S, point, keys) <==> key != S.S2.G.zero)
  {
    var key, x, H := Sum(S.S2.G, InOrder(point, keys)), SumScalars(xs), toCurve(h);
    OneMessageProduct(S, toCurve, point, keys, hashes, h);
    AggregateSecret(S, point, keys, xs);
    var sig := S.encode(SignatureOf(S, x, H));
    SchemeLaws(S, SignatureOf(S, x, H));
    MemberTimes(S, x, H);
    PairScalar(S, x, H);
    assert Accepts(S, sig, S.e(H, key));
    assert VerifiesMany(S, toCurve, point, keys, sig, hashes) <==> NoIdentity(S, point, keys);
    assert Verifies(S, key, sig, H) <==> key != S.S2.G.zero;
  }

  /**
   It can fail: two opposite keys accept the identity signature of their message together, their
   aggregate does not.
   */
  lemma OppositeKeys<K(!new), A(!new), B(!new), C(!new)>(
      S: Scheme<A, B, C>, toCurve: seq<byte> -> A, point: K -> B, k: K, k': K, h: seq<byte>)
    requires ValidScheme(S) && point(k) == S.S2.g && point(k') == S.S2.G.neg(S.S2.g)
    ensures VerifiesMany(S, toCurve, point, [k, k'], S.encode(S.G1.zero), [h, h])
    ensures !Verifies(S, Sum(S.S2.G, InOrder(point, [k, k'])), S.encode(S.G1.zero), toCurve(h))
  {
    var G, g := S.S2.G, S.S2.g;
    OneMessageProduct(S, toCurve, point, [k, k'], [h, h], h);
    assert InOrder(point, [k, k']) == [g] + [G.neg(g)];
    SumAppend(G, [g], [G.neg(g)]);
    SumOne(G, g);
    SumOne(G, G.neg(g));
    assert LawsAt(G, g, G.neg(g), g);
    if G.neg(g) == G.zero {
      ZeroLeft(G, g);
    }
    SchemeLaws(S, S.G1.zero);
    TimesZero(S.G1, S.S2.r);
    BilinearZero(S.G1, G, S.GT, S.e, toCurve(h), g);
  }

  /** With one key the condition always holds. */
  lemma OneKeyAgrees<K(!new), A(!new), B(!new), C(!new)>(
      S: Scheme<A, B, C>, toCurve: seq<byte> -> A, point: K -> B, k: K, sig: seq<byte>, h: seq<byte>)
    requires ValidScheme(S)
    ensures VerifiesMany(S, toCurve, point, [k], sig, [h]) == Verifies(S, point(k), sig, toCurve(h))
  {
    OneMessageProduct(S, toCurve, point, [k], [h], h);
    assert InOrder(point, [k]) == [point(k)];
    SumOne(S.S2.G, point(k));
  }
}
