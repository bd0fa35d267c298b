// Byte strings and fixed-width big-endian integers, as used by the scalar
// encodings of the key generation and by the length fields of the ledger codec.
module Bytes {
  import opened ModArith

  type byte = b: int | 0 <= b < 256

  datatype Option<+T> = None | Some(value: T)

  function FromBytes(s: seq<byte>): nat {
    if s == [] then 0 else FromBytes(s[..|s| - 1]) * 256 + s[|s| - 1]
  }

  /** The low-order `len` bytes of n, most significant first: a narrower field truncates. */
  function ToBytes(n: nat, len: nat): (s: seq<byte>)
    ensures |s| == len
  {
    if len == 0 then [] else ToBytes(n / 256, len - 1) + [n % 256]
  }

  /** Reduction modulo 256 m works digit by digit. */
  lemma ModDigit(n: nat, m: nat)
    requires m > 0
    ensures n % (256 * m) == ((n / 256) % m) * 256 + n % 256
  {
    var h, d := n / 256, n % 256;
    var q, t := h / m, h % m;
    assert h == q * m + t && t <= m - 1;
    assert n == h * 256 + d;
    assert (q * m) * 256 == q * (256 * m);
    assert n == q * (256 * m) + (t * 256 + d);
    DivModUnique(n, 256 * m, q, t * 256 + d);
  }

  lemma {:induction false} FromToBytes(n: nat, len: nat)
    ensures Pow(256, len) > 0 && FromBytes(ToBytes(n, len)) == n % Pow(256, len)
  {
    if len == 0 {
      MultipleIsZero(n, 1);
    } else {
      FromToBytes(n / 256, len - 1);
      ModDigit(n, Pow(256, len - 1));
      assert ToBytes(n, len)[..len - 1] == ToBytes(n / 256, len - 1);
    }
  }

  lemma FromToSmall(n: nat, len: nat)
    requires n < Pow(256, len)
    ensures FromBytes(ToBytes(n, len)) == n
  {
    FromToBytes(n, len);
    CongSmall(n, Pow(256, len));
  }

  lemma {:induction false} ToFromBytes(s: seq<byte>)
    ensures ToBytes(FromBytes(s), |s|) == s
  {
    if s != [] {
      var n := |s| - 1;
      ToFromBytes(s[..n]);
      DivModUnique(FromBytes(s), 256, FromBytes(s[..n]), s[n]);
    }
  }

  /** The concatenation of a list of sequences. */
  function Flatten<T>(ss: seq<seq<T>>): seq<T> {
    if ss == [] then [] else Flatten(ss[..|ss| - 1]) + ss[|ss| - 1]
  }

  /** Where item i of a concatenation starts. */
  ghost function Offset<T>(ss: seq<seq<T>>, i: nat): nat
    requires i <= |ss|
  {
    |Flatten(ss[..i])|
  }

  /** Items follow one another without gaps. */
  lemma {:induction false} FlattenAt<T>(ss: seq<seq<T>>, i: nat)
    requires i < |ss|
    ensures var off := Offset(ss, i);
      off + |ss[i]| == Offset(ss, i + 1) <= |Flatten(ss)| && Flatten(ss)[off..off + |ss[i]|] == ss[i]
    decreases |ss|
  {
    var init := ss[..|ss| - 1];
    if i < |init| {
      FlattenAt(init, i);
      assert init[..i] == ss[..i] && init[..i + 1] == ss[..i + 1];
    } else {
      assert ss[..i] == init && ss[..i + 1] == ss;
    }
  }
}
