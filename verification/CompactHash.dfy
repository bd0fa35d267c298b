// The compact hash of ledger/trie.go: hashing one leaf upwards against a table
// of default hashes equals the root of the fully expanded sparse Merkle tree.
module CompactHash {
  import opened ModArith
  import opened Bytes

  const PATH_LEN := 32
  const MAX_HEIGHT := 256

  /** The hash of a leaf, of an inner node, and of the default leaf. */
  datatype Hasher<!T(==)> = Hasher(leaf: (seq<byte>, seq<byte>) -> T, inner: (T, T) -> T, defaultLeaf: T)

  /** 2^k */
  function Shift(k: nat): (s: nat)
    ensures s > 0
  {
    if k == 0 then 1 else 2 * Shift(k - 1)
  }

  /** Binary digit k of a number, the lowest being digit 0. */
  predicate Digit(n: nat, k: nat) {
    (n / Shift(k)) % 2 == 1
  }

  /** bitutils.ReadBit: bit i of a byte string, most significant first */
  predicate ReadBit(path: seq<byte>, i: nat)
    requires i < 8 * |path|
  {
    Digit(path[i / 8], 7 - i % 8)
  }

  /** A path as its 256 branching decisions. */
  function Bits(path: seq<byte>): (b: seq<bool>)
    ensures |b| == 8 * |path| && forall i :: 0 <= i < |b| ==> b[i] == ReadBit(path, i)
  {
    seq(8 * |path|, (i: nat) requires i < 8 * |path| => ReadBit(path, i))
  }

  // ------------------------------------------------------- Bits as a number

  /** A bit string as a number, first bit most significant. */
  function Number(b: seq<bool>): nat {
    if b == [] then 0 else 2 * Number(b[..|b| - 1]) + (if b[|b| - 1] then 1 else 0)
  }

  lemma NumberOfMore(b: seq<bool>, i: nat)
    requires i < |b|
    ensures Number(b[..i + 1]) == 2 * Number(b[..i]) + if b[i] then 1 else 0
  {
    assert b[..i + 1][..i] == b[..i];
  }

  lemma {:induction false} NumberInjective(a: seq<bool>, b: seq<bool>)
    requires |a| == |b| && Number(a) == Number(b)
    ensures a == b
  {
    if a != [] {
      var n := |a| - 1;
      NumberInjective(a[..n], b[..n]);
      assert a == a[..n] + [a[n]] && b == b[..n] + [b[n]];
    }
  }

  lemma {:induction false} ShiftAdd(j: nat, k: nat)
    ensures Shift(j + k) == Shift(j) * Shift(k)
  {
    if j > 0 {
      ShiftAdd(j - 1, k);
      Regroup(Shift(j - 1), Shift(k));
    }
  }

  lemma Regroup(a: nat, b: nat)
    ensures 2 * (a * b) == (2 * a) * b
  {
  }

  lemma ShiftByByte(k: nat)
    ensures Shift(8 + k) == 256 * Shift(k)
  {
    ShiftAdd(8, k);
    assert Shift(4) == 16 && Shift(8) == 256;
  }

  /** Beyond the last byte. */
  lemma HighDigit(n: nat, b: byte, k: nat)
    ensures Digit(n * 256 + b, 8 + k) == Digit(n, k)
  {
    ShiftByByte(k);
    DivByByte(n, b, Shift(k));
  }

  lemma DivByByte(n: nat, b: byte, d: nat)
    requires d > 0
    ensures (n * 256 + b) / (256 * d) == n / d
  {
    var q, r := n / d, n % d;
    assert n * 256 + b == q * (256 * d) + (r * 256 + b);
    DivModUnique(n * 256 + b, 256 * d, q, r * 256 + b);
  }

  /** Within the last byte. */
  lemma LowDigit(n: nat, b: byte, k: nat)
    requires k < 8
    ensures Digit(n * 256 + b, k) == Digit(b, k)
  {
    ShiftAdd(k, 7 - k);
    assert Shift(7) == 128 by {
      assert Shift(4) == 16;
    }
    DivKeepsParity(n, b, Shift(k), Shift(7 - k));
  }

  lemma DivKeepsParity(n: nat, b: nat, d: nat, f: nat)
    requires d > 0
    ensures ((n * (2 * (d * f)) + b) / d) % 2 == (b / d) % 2
  {
    var q, r, x := b / d, b % d, f * n;
    assert n * (2 * (d * f)) == (2 * x) * d;
    assert n * (2 * (d * f)) + b == (2 * x + q) * d + r;
    DivModUnique(n * (2 * (d * f)) + b, d, 2 * x + q, r);
  }

  /** Bit i of a byte string is a binary digit of its big-endian number, counted from the top. */
  lemma {:induction false} ReadBitIsDigit(path: seq<byte>, i: nat)
    requires i < 8 * |path|
    ensures ReadBit(path, i) == Digit(FromBytes(path), 8 * |path| - 1 - i)
    decreases |path|
  {
    var n := |path| - 1;
    if i < 8 * n {
      ReadBitIsDigit(path[..n], i);
      HighDigit(FromBytes(path[..n]), path[n], 8 * n - 1 - i);
    } else {
      LowDigit(FromBytes(path[..n]), path[n], 7 - i % 8);
    }
  }

  lemma {:induction false} BelowShift(path: seq<byte>)
    ensures FromBytes(path) < Shift(8 * |path|)
  {
    if path != [] {
      BelowShift(path[..|path| - 1]);
      ShiftByByte(8 * (|path| - 1));
    }
  }

  /** The number n without its k lowest digits. */
  function High(n: nat, k: nat): nat {
    QuotientNat(n, Shift(k));
    n / Shift(k)
  }

  lemma QuotientNat(n: nat, d: nat)
    requires d > 0
    ensures n / d >= 0
  {
  }

  lemma NoHighPart(n: nat, k: nat)
    requires n < Shift(k)
    ensures High(n, k) == 0
  {
    DivModUnique(n, Shift(k), 0, n);
  }

  lemma NextDigit(n: nat, k: nat)
    ensures High(n, k) == 2 * High(n, k + 1) + if Digit(n, k) then 1 else 0
  {
    var d := Shift(k);
    var q, r := n / (2 * d), n % (2 * d);
    assert n == (2 * q) * d + r;
    if r < d {
      DivModUnique(n, d, 2 * q, r);
    } else {
      DivModUnique(n, d, 2 * q + 1, r - d);
    }
  }

  /** The first i bits of a path are the high part of its number; all of them are the number. */
  lemma {:induction false} NumberOfPrefix(path: seq<byte>, i: nat)
    requires i <= 8 * |path|
    ensures Number(Bits(path)[..i]) == High(FromBytes(path), 8 * |path| - i)
  {
    if i == 0 {
      BelowShift(path);
      NoHighPart(FromBytes(path), 8 * |path|);
    } else {
      NumberOfPrefix(path, i - 1);
      ReadBitIsDigit(path, i - 1);
      NextDigit(FromBytes(path), 8 * |path| - i);
      NumberOfMore(Bits(path), i - 1);
    }
  }

  lemma NumberOfBits(path: seq<byte>)
    ensures Number(Bits(path)) == FromBytes(path)
  {
    NumberOfPrefix(path, 8 * |path|);
    assert Bits(path)[..8 * |path|] == Bits(path);
  }

  // ------------------------------------------------- The fully expanded tree

  /**
   The root of the complete tree of height h below the node reached by `prefix`; `leaf` gives the
   hash of every leaf.
   */
  function Root<T>(H: Hasher<T>, leaf: seq<bool> -> T, h: nat, prefix: seq<bool>): T
    decreases h
  {
    if h == 0 then leaf(prefix)
    else H.inner(Root(H, leaf, h - 1, prefix + [false]), Root(H, leaf, h - 1, prefix + [true]))
  }

  /** Only the leaf at the given address differs from the default. */
  function OnlyLeaf<T>(H: Hasher<T>, bits: seq<bool>, here: T): seq<bool> -> T {
    (a: seq<bool>) => if a == bits then here else H.defaultLeaf
  }

  function NoLeaf<T>(H: Hasher<T>): seq<bool> -> T {
    (a: seq<bool>) => H.defaultLeaf
  }

  /** The root of the n-th complete subtree of height h from the left, `leafAt` giving the hashes of the leaves. */
  function RootAt<T>(H: Hasher<T>, leafAt: nat -> T, h: nat, n: nat): T
    decreases h
  {
    if h == 0 then leafAt(n) else H.inner(RootAt(H, leafAt, h - 1, 2 * n), RootAt(H, leafAt, h - 1, 2 * n + 1))
  }

  function OnlyLeafAt<T>(H: Hasher<T>, k: nat, here: T): nat -> T {
    (n: nat) => if n == k then here else H.defaultLeaf
  }

  /** Descending by bits and counting from the left give the same tree. */
  lemma {:induction false} BitsCount<T>(H: Hasher<T>, bits: seq<bool>, here: T, h: nat, prefix: seq<bool>)
    requires |prefix| + h == |bits|
    ensures Root(H, OnlyLeaf(H, bits, here), h, prefix) ==
            RootAt(H, OnlyLeafAt(H, Number(bits), here), h, Number(prefix))
    decreases h
  {
    if h == 0 {
      if Number(prefix) == Number(bits) {
        NumberInjective(prefix, bits);
      }
    } else {
      assert (prefix + [false])[..|prefix|] == prefix == (prefix + [true])[..|prefix|];
      BitsCount(H, bits, here, h - 1, prefix + [false]);
      BitsCount(H, bits, here, h - 1, prefix + [true]);
    }
  }

  /**
   The node of height h above the leaf at a path, in the complete tree where, counted from the left,
   the leaf whose number is the path holds the value and every other leaf is default.
   */
  function NodeAbove<T>(H: Hasher<T>, path: seq<byte>, value: seq<byte>, h: nat): T {
    RootAt(H, OnlyLeafAt(H, FromBytes(path), LeafHash(H, path, value)), h, High(FromBytes(path), h))
  }

  /** A leaf without a value hashes to the default. */
  function LeafHash<T>(H: Hasher<T>, path: seq<byte>, value: seq<byte>): T {
    if value == [] then H.defaultLeaf else H.leaf(path, value)
  }

  lemma NodeOnPath<T>(H: Hasher<T>, path: seq<byte>, value: seq<byte>, h: nat)
    requires h <= 8 * |path|
    ensures NodeAbove(H, path, value, h) ==
            Root(H, OnlyLeaf(H, Bits(path), LeafHash(H, path, value)), h, Bits(path)[..8 * |path| - h])
  {
    NumberOfBits(path);
    NumberOfPrefix(path, 8 * |path| - h);
    BitsCount(H, Bits(path), LeafHash(H, path, value), h, Bits(path)[..8 * |path| - h]);
  }

  /** The table entry for height h. */
  function Default<T>(H: Hasher<T>, h: nat): T {
    if h == 0 then H.defaultLeaf else H.inner(Default(H, h - 1), Default(H, h - 1))
  }

  /** The table holds the root of the all-default tree at each height, wherever it stands. */
  lemma {:induction false} DefaultIsRoot<T>(H: Hasher<T>, h: nat, prefix: seq<bool>)
    ensures Default(H, h) == Root(H, NoLeaf(H), h, prefix)
  {
    if h > 0 {
      DefaultIsRoot(H, h - 1, prefix + [false]);
      DefaultIsRoot(H, h - 1, prefix + [true]);
    }
  }

  /** A subtree that does not lead to the leaf is all default. */
  lemma {:induction false} OffPath<T>(H: Hasher<T>, bits: seq<bool>, here: T, h: nat, prefix: seq<bool>)
    requires |prefix| + h == |bits| && (here == H.defaultLeaf || !(prefix <= bits))
    ensures Root(H, OnlyLeaf(H, bits, here), h, prefix) == Default(H, h)
    decreases h
  {
    if h > 0 {
      NotPrefix(prefix, false, bits);
      NotPrefix(prefix, true, bits);
      OffPath(H, bits, here, h - 1, prefix + [false]);
      OffPath(H, bits, here, h - 1, prefix + [true]);
    }
  }

  lemma NotPrefix(prefix: seq<bool>, b: bool, bits: seq<bool>)
    ensures !(prefix <= bits) ==> !(prefix + [b] <= bits)
  {
    if prefix + [b] <= bits {
      assert prefix == (prefix + [b])[..|prefix|] == bits[..|prefix + [b]|][..|prefix|];
    }
  }

  /** One level up: the sibling of the node on the path is a default node. */
  lemma OneLevelUp<T>(H: Hasher<T>, bits: seq<bool>, here: T, n: nat)
    requires n < |bits|
    ensures var leaf, h := OnlyLeaf(H, bits, here), |bits| - n - 1;
      var below := Root(H, leaf, h, bits[..n + 1]);
      Root(H, leaf, h + 1, bits[..n]) ==
        if bits[n] then H.inner(Default(H, h), below) else H.inner(below, Default(H, h))
  {
    var prefix := bits[..n];
    assert bits[..n + 1] == prefix + [bits[n]];
    var sibling := prefix + [!bits[n]];
    assert sibling[n] != bits[n];
    OffPath(H, bits, here, |bits| - n - 1, sibling);
  }

  // ----------------------------------------------------------------- The code

  ghost predicate IsTable<T>(H: Hasher<T>, table: seq<T>) {
    |table| == MAX_HEIGHT + 1 && forall i :: 0 <= i <= MAX_HEIGHT ==> table[i] == Default(H, i)
  }

  /** init: the table of default hashes, filled from the leaf up */
  method InitDefaultHashes<T(0)>(H: Hasher<T>) returns (table: array<T>)
    ensures fresh(table) && IsTable(H, table[..])
    ensures forall h, prefix :: 0 <= h <= MAX_HEIGHT ==> table[h] == Root(H, NoLeaf(H), h, prefix)
  {
    table := new T[MAX_HEIGHT + 1];
    table[0] := H.defaultLeaf;
    for i := 1 to MAX_HEIGHT + 1
      invariant forall k :: 0 <= k < i ==> table[k] == Default(H, k)
    {
      table[i] := H.inner(table[i - 1], table[i - 1]);
    }
    forall h: nat, prefix | h <= MAX_HEIGHT
      ensures table[h] == Root(H, NoLeaf(H), h, prefix)
    {
      DefaultIsRoot(H, h, prefix);
    }
  }

  /** ComputeCompactValue */
  method ComputeCompactValue<T>(H: Hasher<T>, table: seq<T>, path: seq<byte>, value: seq<byte>, nodeHeight: nat)
      returns (out: T)
    requires IsTable(H, table) && |path| == PATH_LEN && nodeHeight <= MAX_HEIGHT
    ensures out == NodeAbove(H, path, value, nodeHeight)
  {
    NodeOnPath(H, path, value, nodeHeight);
    if value == [] {
      OffPath(H, Bits(path), H.defaultLeaf, nodeHeight, Bits(path)[..MAX_HEIGHT - nodeHeight]);
      return table[nodeHeight];
    }
    out := HashUp(H, table, Bits(path), H.leaf(path, value), nodeHeight);
  }

  /** The loop from the leaf up, over the bits of the path. */
  method HashUp<T>(H: Hasher<T>, table: seq<T>, bits: seq<bool>, leaf: T, nodeHeight: nat) returns (out: T)
    requires IsTable(H, table) && |bits| == MAX_HEIGHT && nodeHeight <= MAX_HEIGHT
    ensures out == Root(H, OnlyLeaf(H, bits, leaf), nodeHeight, bits[..MAX_HEIGHT - nodeHeight])
  {
    out := leaf;
    assert bits[..MAX_HEIGHT] == bits;
    for h := 1 to nodeHeight + 1
      invariant out == Root(H, OnlyLeaf(H, bits, leaf), h - 1, bits[..MAX_HEIGHT - h + 1])
    {
      OneLevelUp(H, bits, leaf, MAX_HEIGHT - h);
      if bits[MAX_HEIGHT - h] {
        out := H.inner(table[h - 1], out);
      } else {
        out := H.inner(out, table[h - 1]);
      }
    }
  }
}
