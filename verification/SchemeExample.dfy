// The contracts of the curve library are consistent: the residues modulo the group order of
// BLS12-381, with addition as group and multiplication as pairing, meet all of them.
module SchemeExample {
  import opened ModArith
  import opened Groups
  import opened Bytes
  import opened Polynomials
  import opened Bls

  /** The order of the subgroups of BLS12-381. */
  const ORDER: nat := 0x73eda753_299d7d48_3339d808_09a1d805_53bda402_fffe5bfe_ffffffff_00000001

  type Residue = x: int | 0 <= x < ORDER

  function Reduced(sum: int, m: nat): int {
    if sum >= m then sum - m else sum
  }

  function Plus(a: Residue, b: Residue): Residue {
    Reduced(a as int + b as int, ORDER)
  }

  function Negate(a: Residue): Residue {
    if a == 0 then 0 else ORDER - a as int
  }

  function ModProduct(a: int, b: int, m: nat): (c: int)
    requires m > 0
    ensures 0 <= c < m
  {
    CongMod(a * b, m);
    (a * b) % m
  }

  function Pair(a: Residue, b: Residue): Residue {
    ModProduct(a, b, ORDER)
  }

  function Write(len: nat): Residue -> seq<byte> {
    (a: Residue) => ToBytes(a, len)
  }

  function Read(len: nat): seq<byte> -> Option<Residue> {
    (s: seq<byte>) => if |s| == len && FromBytes(s) < ORDER then Some(FromBytes(s)) else None
  }

  function Additive(): Group<Residue> {
    Group(0, Plus, Negate)
  }

  function ResidueSuite(): Suite<Residue> {
    Suite(Additive(), 1, ORDER, Read(POINT_LEN), Write(POINT_LEN))
  }

  function ResidueScheme(): Scheme<Residue, Residue, Residue> {
    Scheme(Additive(), Additive(), Pair, ResidueSuite(), Read(SIGNATURE_LEN), Write(SIGNATURE_LEN))
  }

  lemma AdditiveLaws()
    ensures Abelian(Additive())
  {
  }

  lemma {:induction false} TimesOne(n: nat)
    requires n < ORDER
    ensures Times(Additive(), n, 1) == n
  {
    if n > 0 {
      TimesOne(n - 1);
    }
  }

  lemma OrderOfOne()
    ensures Times(Additive(), ORDER, 1) == 0
  {
    TimesOne(ORDER - 1);
    assert Times(Additive(), ORDER, 1) == Plus(1, ORDER - 1);
  }

  lemma ReadWrite(len: nat, a: Residue)
    requires len >= SCALAR_LEN
    ensures |Write(len)(a)| == len && Read(len)(Write(len)(a)) == Some(a)
  {
    var w := Pow(256, 4);
    assert w == 0x1_0000_0000;
    PowAdd(256, 4, 4);
    PowAdd(256, 8, 8);
    PowAdd(256, 16, 16);
    PowGrows(SCALAR_LEN, len);
    FromToSmall(a, len);
  }

  lemma {:induction false} PowGrows(a: nat, b: nat)
    requires a <= b
    ensures 0 < Pow(256, a) <= Pow(256, b)
    decreases b
  {
    if a < b {
      PowGrows(a, b - 1);
    } else if a > 0 {
      PowGrows(a - 1, b - 1);
    }
  }

  lemma ReducedCong(sum: int, m: nat)
    requires m > 0
    ensures Cong(Reduced(sum, m), sum, m)
  {
    CongByWitness(Reduced(sum, m), sum, m, if sum >= m then -1 else 0);
  }

  /** The residues of two numbers add up to the residue of the sum. */
  lemma SumOfResidues(u: int, v: int, m: nat)
    requires m > 0
    ensures Reduced(u % m + v % m, m) == (u + v) % m
  {
    CongMod(u, m);
    CongMod(v, m);
    CongAdd(u % m, u, v % m, v, m);
    ReducedCong(u % m + v % m, m);
    CongSmall(Reduced(u % m + v % m, m), m);
  }

  lemma Distribute(a: int, b: int, x: int, m: nat)
    requires m > 0
    ensures Cong(Reduced(a + b, m) * x, a * x + b * x, m)
  {
    ReducedCong(a + b, m);
    CongMul(Reduced(a + b, m), a + b, x, x, m);
    Expand(a, b, x);
  }

  lemma Expand(a: int, b: int, x: int)
    ensures (a + b) * x == a * x + b * x
  {
  }

  /** Multiplication distributes over the reduced sum. */
  lemma ProductOfSum(a: int, b: int, x: int, m: nat)
    requires m > 0
    ensures ModProduct(Reduced(a + b, m), x, m) == Reduced(ModProduct(a, x, m) + ModProduct(b, x, m), m)
  {
    Distribute(a, b, x, m);
    SumOfResidues(a * x, b * x, m);
  }

  lemma Commutes(a: int, b: int, m: nat)
    requires m > 0
    ensures ModProduct(a, b, m) == ModProduct(b, a, m)
  {
  }

  lemma PairBilinear(a: Residue, a': Residue, b: Residue, b': Residue)
    ensures BilinearAt(Additive(), Additive(), Additive(), Pair, a, a', b, b')
  {
    ProductOfSum(a, a', b, ORDER);
    ProductOfSum(b, b', a, ORDER);
    Commutes(a, Plus(b, b'), ORDER);
    Commutes(a, b, ORDER);
    Commutes(a, b', ORDER);
  }

  lemma PairSeparates(P: Residue)
    ensures SeparatesAt(ResidueScheme(), P)
  {
    CongSmall(P, ORDER);
  }

  /** Given that the order is prime, the residues are a suite and a scheme. */
  lemma ContractsAreConsistent()
    requires IsPrime(ORDER)
    ensures ValidSuite(ResidueSuite()) && ValidScheme(ResidueScheme())
  {
    AdditiveLaws();
    OrderOfOne();
    forall P
      ensures EncodesAt(ResidueSuite(), P) && SignatureEncodes(ResidueScheme(), P) && SeparatesAt(ResidueScheme(), P)
    {
      ReadWrite(POINT_LEN, P);
      ReadWrite(SIGNATURE_LEN, P);
      PairSeparates(P);
    }
    forall a, a', b, b'
      ensures BilinearAt(Additive(), Additive(), Additive(), Pair, a, a', b, b')
    {
      PairBilinear(a, a', b, b');
    }
  }
}
