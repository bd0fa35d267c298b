// When the decoders of ledger/trie_encoder.go panic instead of returning an error: an 8-byte size
// of 2^63 or more turns negative as an int, passes the length check and cannot be sliced.
module TrieCodecPanics {
  import opened Bytes
  import opened TrieCodec

  /** An 8-byte size field that holds 2^63 or more. */
  predicate Oversized(inp: seq<byte>) {
    |inp| >= 8 && inp[0] >= 128
  }

  lemma Scale(a: int, m: int)
    ensures a * (256 * m) == 256 * (a * m)
  {
  }

  /** The first byte bounds the number. */
  lemma {:induction false} LeadingByte(s: seq<byte>)
    requires s != []
    ensures (s[0] as int) * Limit(|s| - 1) <= FromBytes(s) < (s[0] as int + 1) * Limit(|s| - 1)
  {
    var n := |s| - 1;
    if n > 0 {
      LeadingByte(s[..n]);
      Scale(s[0], Limit(n - 1));
      Scale(s[0] as int + 1, Limit(n - 1));
    }
  }

  lemma OversizedSize(s: seq<byte>)
    requires |s| == 8
    ensures FromBytes(s) < 0x1_0000_0000_0000_0000
    ensures s[0] >= 128 <==> FromBytes(s) >= 0x8000_0000_0000_0000
  {
    LeadingByte(s);
    assert Limit(3) == 0x100_0000 && Limit(5) == 0x100_0000_0000;
    assert Limit(7) == 0x100_0000_0000_0000;
  }

  lemma SizedPanics(w: nat, inp: seq<byte>)
    ensures ReadSized(w, inp) == Panics <==> w == 8 && Oversized(inp)
  {
    if w == 8 && |inp| >= 8 {
      OversizedSize(inp[..8]);
    }
  }

  /** A size field of w bytes and that many bytes after it. */
  predicate SliceFits(w: nat, inp: seq<byte>) {
    |inp| >= w && !(w == 8 && inp[0] >= 128) && |inp| >= w + FromBytes(inp[..w])
  }

  function SliceAt(w: nat, inp: seq<byte>): seq<byte>
    requires SliceFits(w, inp)
  {
    inp[w..w + FromBytes(inp[..w])]
  }

  function AfterSlice(w: nat, inp: seq<byte>): seq<byte>
    requires SliceFits(w, inp)
  {
    inp[w + FromBytes(inp[..w])..]
  }

  /** The three ends of reading a sized slice, by the bytes alone. */
  lemma SizedReads(w: nat, inp: seq<byte>)
    ensures ReadSized(w, inp) ==
      if SliceFits(w, inp) then Ok((SliceAt(w, inp), AfterSlice(w, inp)))
      else if w == 8 && Oversized(inp) then Panics else Error
  {
    SizedPanics(w, inp);
    if |inp| >= w {
      if w == 8 {
        OversizedSize(inp[..8]);
      }
      var size := FromBytes(inp[..w]);
      if |inp| >= w + size {
        assert inp[w..][..size] == inp[w..w + size] && inp[w..][size..] == inp[w + size..];
      }
    }
  }

  // ------------------------------------------------------------------- Lists

  /** The n items all have their bytes, and each fits. */
  predicate ListFits(w: nat, fits: seq<byte> -> bool, n: nat, inp: seq<byte>) {
    n == 0 || (SliceFits(w, inp) && fits(SliceAt(w, inp)) && ListFits(w, fits, n - 1, AfterSlice(w, inp)))
  }

  /** Among the n items, after some that fit, comes one whose own size or a size inside it is too large. */
  predicate ListOversized(w: nat, fits: seq<byte> -> bool, oversized: seq<byte> -> bool, n: nat, inp: seq<byte>) {
    n > 0 &&
    if SliceFits(w, inp) then
      || oversized(SliceAt(w, inp))
      || (fits(SliceAt(w, inp)) && ListOversized(w, fits, oversized, n - 1, AfterSlice(w, inp)))
    else w == 8 && Oversized(inp)
  }

  /** The decoder of an item succeeds exactly where fits holds and panics exactly where oversized does. */
  ghost predicate Decides<T>(dec: seq<byte> -> Outcome<T>, fits: seq<byte> -> bool, oversized: seq<byte> -> bool) {
    forall data :: (dec(data).Ok? <==> fits(data)) && (dec(data) == Panics <==> oversized(data))
  }

  /** A list decodes exactly when all items fit, and panics exactly when the first that does not is too large. */
  lemma {:induction false} ItemsDecide<T>(
      w: nat, dec: seq<byte> -> Outcome<T>, fits: seq<byte> -> bool, oversized: seq<byte> -> bool,
      n: nat, inp: seq<byte>)
    requires Decides(dec, fits, oversized)
    ensures DecodeItems(w, dec, n, inp).Ok? <==> ListFits(w, fits, n, inp)
    ensures DecodeItems(w, dec, n, inp) == Panics <==> ListOversized(w, fits, oversized, n, inp)
  {
    if n > 0 {
      SizedReads(w, inp);
      if SliceFits(w, inp) {
        var data := SliceAt(w, inp);
        assert dec(data).Ok? <==> fits(data);
        ItemsDecide(w, dec, fits, oversized, n - 1, AfterSlice(w, inp));
      }
    }
  }

  lemma {:induction false} NeverOversized(w: nat, fits: seq<byte> -> bool, n: nat, inp: seq<byte>)
    requires w != 8
    ensures !ListOversized(w, fits, _ => false, n, inp)
  {
    if n > 0 && SliceFits(w, inp) {
      NeverOversized(w, fits, n - 1, AfterSlice(w, inp));
    }
  }

  // ---------------------------------------------------------- Keys and payloads

  /** Keys have no 8-byte size: decoding one never panics. */
  lemma KeyNeverPanics(inp: seq<byte>)
    ensures ParseKey(inp) != Panics
  {
    var header := CheckHeader(inp, PAYLOAD_VERSION, TYPE_KEY);
    if header.Ok? && ReadUint(2, header.value.1).Ok? {
      var (n, rest) := ReadUint(2, header.value.1).value;
      var fits := (data: seq<byte>) => |data| >= 2;
      ItemsDecide(4, ParseKeyPart, fits, _ => false, n, rest);
      NeverOversized(4, fits, n, rest);
    }
  }

  /** Key and value of a payload have their bytes. */
  predicate PayloadFits(content: seq<byte>, version: nat) {
    SliceFits(4, content) && SliceFits(ValueWidth(version), AfterSlice(4, content))
  }

  /** The value size of a payload of version 0, which follows the key. */
  predicate PayloadOversized(content: seq<byte>, version: nat) {
    version == 0 && SliceFits(4, content) && Oversized(AfterSlice(4, content))
  }

  lemma PayloadDecides(content: seq<byte>, version: nat)
    ensures ParsePayloadContent(content, version).Ok? <==> PayloadFits(content, version)
    ensures ParsePayloadContent(content, version) == Panics <==> PayloadOversized(content, version)
  {
    SizedReads(4, content);
    if SliceFits(4, content) {
      SizedReads(ValueWidth(version), AfterSlice(4, content));
    }
  }

  lemma PayloadPanics(inp: seq<byte>)
    ensures ParsePayload(inp) == Panics <==>
      |inp| >= 3 && FromBytes(inp[..2]) == 0 && inp[2] == TYPE_PAYLOAD && PayloadOversized(inp[3..], 0)
  {
    HeaderReads(inp, PAYLOAD_VERSION, TYPE_PAYLOAD);
    if |inp| >= 3 {
      PayloadDecides(inp[3..], FromBytes(inp[..2]));
    }
  }

  /** A header is two bytes of version and one of type. */
  lemma HeaderReads(inp: seq<byte>, maxVersion: nat, typ: nat)
    requires typ < TYPE_UNSUPPORTED
    ensures CheckHeader(inp, maxVersion, typ) ==
      if |inp| >= 3 && FromBytes(inp[..2]) <= maxVersion && inp[2] == typ then Ok((FromBytes(inp[..2]), inp[3..]))
      else Error
  {
    if |inp| >= 3 {
      assert inp[2..][..1] == [inp[2]] && inp[2..][1..] == inp[3..];
      assert FromBytes([inp[2]]) == inp[2];
    }
  }

  // -------------------------------------------------------------- Trie updates

  /** In a list of n payloads, the first that does not fit has a value size that is too large. */
  predicate PayloadsOversized(n: nat, rest: seq<byte>, version: nat) {
    ListOversized(
      4, (b: seq<byte>) => PayloadFits(b, version), (b: seq<byte>) => PayloadOversized(b, version), n, rest)
  }

  lemma PayloadsPanic(n: nat, rest: seq<byte>, version: nat)
    ensures DecodeItems(4, (b: seq<byte>) => ParsePayloadContent(b, version), n, rest) == Panics <==>
      PayloadsOversized(n, rest, version)
  {
    var dec := (b: seq<byte>) => ParsePayloadContent(b, version);
    var fits, oversized := (b: seq<byte>) => PayloadFits(b, version), (b: seq<byte>) => PayloadOversized(b, version);
    forall data
      ensures (dec(data).Ok? <==> fits(data)) && (dec(data) == Panics <==> oversized(data))
    {
      PayloadDecides(data, version);
    }
    ItemsDecide(4, dec, fits, oversized, n, rest);
  }

  /** Paths are read when they are 32 bytes long and all there, and never panic. */
  lemma {:induction false} PathsRead(n: nat, size: nat, inp: seq<byte>)
    ensures ParsePaths(n, size, inp) != Panics
    ensures ParsePaths(n, size, inp).Ok? <==> n == 0 || (size == HASH_LEN && |inp| >= HASH_LEN * n)
    ensures ParsePaths(n, size, inp).Ok? ==> ParsePaths(n, size, inp).value.1 == inp[HASH_LEN * n..]
  {
    if n > 0 && ReadSlice(inp, size).Ok? {
      PathsRead(n - 1, size, inp[size..]);
      if size == HASH_LEN && |inp| >= HASH_LEN * n {
        assert inp[HASH_LEN..][HASH_LEN * (n - 1)..] == inp[HASH_LEN * n..];
      }
    }
  }

  /** Past the root hash, the number of paths, their size and the paths, some payload is too large. */
  predicate UpdateOversized(content: seq<byte>, version: nat) {
    && |content| >= 40 && FromBytes(content[..2]) == HASH_LEN && FromBytes(content[38..40]) == HASH_LEN
    && var n := FromBytes(content[34..38]);
       |content| >= 40 + HASH_LEN * n && PayloadsOversized(n, content[40 + HASH_LEN * n..], version)
  }

  lemma UpdateTailPanics(rootHash: seq<byte>, n: nat, inp: seq<byte>, version: nat)
    ensures ParseUpdateTail(rootHash, n, inp, version) == Panics <==>
      && |inp| >= 2 && FromBytes(inp[..2]) == HASH_LEN && |inp| >= 2 + HASH_LEN * n
      && PayloadsOversized(n, inp[2 + HASH_LEN * n..], version)
  {
    if |inp| >= 2 {
      var size, rest := FromBytes(inp[..2]), inp[2..];
      PathsRead(n, size, rest);
      if ParsePaths(n, size, rest).Ok? {
        assert rest[HASH_LEN * n..] == inp[2 + HASH_LEN * n..];
        PayloadsPanic(n, inp[2 + HASH_LEN * n..], version);
      }
    }
  }

  lemma UpdateContentPanics(content: seq<byte>, version: nat)
    ensures ParseUpdateContent(content, version) == Panics <==> UpdateOversized(content, version)
  {
    SizedPanics(2, content);
    if |content| >= 38 && FromBytes(content[..2]) == HASH_LEN {
      var rest, n, tail := content[34..], FromBytes(content[34..38]), content[38..];
      assert content[2..][HASH_LEN..] == rest && rest[..4] == content[34..38] && rest[4..] == tail;
      UpdateTailPanics(content[2..][..HASH_LEN], n, tail, version);
      if |content| >= 40 {
        assert tail[..2] == content[38..40];
        if |content| >= 40 + HASH_LEN * n {
          assert tail[2 + HASH_LEN * n..] == content[40 + HASH_LEN * n..];
        }
      }
    }
  }

  lemma UpdatePanics(inp: seq<byte>)
    ensures ParseUpdate(inp) == Panics <==>
      |inp| >= 3 && FromBytes(inp[..2]) == 0 && inp[2] == TYPE_TRIE_UPDATE && UpdateOversized(inp[3..], 0)
  {
    HeaderReads(inp, UPDATE_VERSION, TYPE_TRIE_UPDATE);
    if |inp| >= 3 {
      UpdateContentPanics(inp[3..], FromBytes(inp[..2]));
    }
  }

  // -------------------------------------------------------------------- Proofs

  /** Flag byte, steps, flags and a path of 32 bytes. */
  predicate ProofStarts(content: seq<byte>) {
    |content| >= 3 &&
    var at := 3 + content[2] as nat;
    |content| >= at + 2 + HASH_LEN && FromBytes(content[at..at + 2]) == HASH_LEN
  }

  /** What follows the path. */
  function PastPath(content: seq<byte>): seq<byte>
    requires ProofStarts(content)
  {
    content[5 + HASH_LEN + content[2] as nat..]
  }

  /** The interims: one byte of count, and that many sized hashes. */
  predicate InterimsFit(inp: seq<byte>) {
    |inp| >= 1 && ListFits(2, (h: seq<byte>) => |h| == HASH_LEN, FromBytes(inp[..1]), inp[1..])
  }

  predicate ProofFits(content: seq<byte>, version: nat) {
    ProofStarts(content) &&
    var rest := PastPath(content);
    SliceFits(8, rest) && PayloadFits(SliceAt(8, rest), version) && InterimsFit(AfterSlice(8, rest))
  }

  /** The payload's size is too large, or the value size inside the payload. */
  predicate ProofOversized(content: seq<byte>, version: nat) {
    ProofStarts(content) &&
    var rest := PastPath(content);
    if SliceFits(8, rest) then PayloadOversized(SliceAt(8, rest), version) else Oversized(rest)
  }

  /** What follows the path in a proof, when everything up to there can be read. */
  function ProofRest(content: seq<byte>): Outcome<seq<byte>> {
    var (first, rest) :- ReadSlice(content, 1);
    var (steps, rest) :- ReadUint(1, rest);
    var (flags, rest) :- ReadSized(1, rest);
    var (pathBytes, rest) :- ReadSized(2, rest);
    var path :- ToHash(pathBytes);
    Ok(rest)
  }

  lemma ProofRestReads(content: seq<byte>)
    ensures ProofRest(content) == if ProofStarts(content) then Ok(PastPath(content)) else Error
  {
    if |content| >= 3 {
      var at := 3 + content[2] as nat;
      assert content[1..][1..] == content[2..] && content[2..][..1] == [content[2]] &&
        content[2..][1..] == content[3..];
      assert FromBytes([content[2]]) == content[2];
      if |content| >= at {
        assert content[3..][content[2]..] == content[at..];
        SizedPanics(2, content[at..]);
        if |content| >= at + 2 {
          assert content[at..][..2] == content[at..at + 2] && content[at..][2..] == content[at + 2..];
          if |content| >= at + 2 + HASH_LEN {
            assert content[at + 2..][HASH_LEN..] == content[at + 2 + HASH_LEN..];
          }
        }
      }
    }
  }

  lemma InterimsDecide(inp: seq<byte>)
    ensures ParseInterims(inp) != Panics
    ensures ParseInterims(inp).Ok? <==> InterimsFit(inp)
  {
    if |inp| >= 1 {
      var n, fits := FromBytes(inp[..1]), (h: seq<byte>) => |h| == HASH_LEN;
      ItemsDecide(2, ToHash, fits, _ => false, n, inp[1..]);
      NeverOversized(2, fits, n, inp[1..]);
    }
  }

  /** What follows the path of a proof. */
  function PayloadAndInterims(rest: seq<byte>, version: nat): Outcome<(Payload, seq<seq<byte>>)> {
    var (encPayload, tail) :- ReadSized(8, rest);
    var payload :- ParsePayloadContent(encPayload, version);
    var interims :- ParseInterims(tail);
    Ok((payload, interims))
  }

  lemma NoProofRest(content: seq<byte>, version: nat)
    requires !ProofRest(content).Ok?
    ensures ParseProofContent(content, version) == ProofRest(content).PropagateFailure()
  {
    var first := ReadSlice(content, 1);
    if first.Ok? {
      var steps := ReadUint(1, first.value.1);
      if steps.Ok? {
        var flags := ReadSized(1, steps.value.1);
        if flags.Ok? {
          var pathBytes := ReadSized(2, flags.value.1);
          assert pathBytes.Ok? ==> !ToHash(pathBytes.value.0).Ok?;
        }
      }
    }
  }

  lemma ProofInTwoParts(content: seq<byte>, version: nat)
    requires ProofRest(content).Ok?
    ensures var o, tail := ParseProofContent(content, version), PayloadAndInterims(ProofRest(content).value, version);
      (o == Panics <==> tail == Panics) && (o.Ok? <==> tail.Ok?)
  {
    var first := ReadSlice(content, 1).value;
    var steps := ReadUint(1, first.1).value;
    var flags := ReadSized(1, steps.1).value;
    var pathBytes := ReadSized(2, flags.1).value;
    assert ProofRest(content).value == pathBytes.1;
    var encPayload := ReadSized(8, pathBytes.1);
    if encPayload.Ok? {
      var payload := ParsePayloadContent(encPayload.value.0, version);
      if payload.Ok? {
        var interims := ParseInterims(encPayload.value.1);
      }
    }
  }

  lemma PayloadAndInterimsDecide(rest: seq<byte>, version: nat)
    ensures PayloadAndInterims(rest, version).Ok? <==>
      SliceFits(8, rest) && PayloadFits(SliceAt(8, rest), version) && InterimsFit(AfterSlice(8, rest))
    ensures PayloadAndInterims(rest, version) == Panics <==>
      if SliceFits(8, rest) then PayloadOversized(SliceAt(8, rest), version) else Oversized(rest)
  {
    SizedReads(8, rest);
    if SliceFits(8, rest) {
      PayloadDecides(SliceAt(8, rest), version);
      InterimsDecide(AfterSlice(8, rest));
    }
  }

  lemma ProofDecides(content: seq<byte>, version: nat)
    ensures ParseProofContent(content, version).Ok? <==> ProofFits(content, version)
    ensures ParseProofContent(content, version) == Panics <==> ProofOversized(content, version)
  {
    ProofRestReads(content);
    if ProofStarts(content) {
      ProofInTwoParts(content, version);
      PayloadAndInterimsDecide(PastPath(content), version);
    } else {
      NoProofRest(content, version);
    }
  }

  lemma ProofPanics(inp: seq<byte>)
    ensures ParseProof(inp) == Panics <==>
      |inp| >= 3 && FromBytes(inp[..2]) == 0 && inp[2] == TYPE_PROOF && ProofOversized(inp[3..], 0)
  {
    HeaderReads(inp, PROOF_VERSION, TYPE_PROOF);
    if |inp| >= 3 {
      ProofDecides(inp[3..], FromBytes(inp[..2]));
    }
  }

  /** In a list of n proofs, the first that does not fit is too large, or has a size inside that is. */
  predicate ProofsOversized(n: nat, rest: seq<byte>, version: nat) {
    ListOversized(8, (b: seq<byte>) => ProofFits(b, version), (b: seq<byte>) => ProofOversized(b, version), n, rest)
  }

  lemma ProofsPanic(n: nat, rest: seq<byte>, version: nat)
    ensures DecodeItems(8, (b: seq<byte>) => ParseProofContent(b, version), n, rest) == Panics <==>
      ProofsOversized(n, rest, version)
  {
    var dec := (b: seq<byte>) => ParseProofContent(b, version);
    var fits, oversized := (b: seq<byte>) => ProofFits(b, version), (b: seq<byte>) => ProofOversized(b, version);
    forall data
      ensures (dec(data).Ok? <==> fits(data)) && (dec(data) == Panics <==> oversized(data))
    {
      ProofDecides(data, version);
    }
    ItemsDecide(8, dec, fits, oversized, n, rest);
  }

  lemma BatchPanics(inp: seq<byte>)
    ensures ParseBatch(inp) == Panics <==>
      && |inp| >= 7 && FromBytes(inp[..2]) == 0 && inp[2] == TYPE_BATCH_PROOF
      && ProofsOversized(FromBytes(inp[3..7]), inp[7..], 0)
  {
    HeaderReads(inp, BATCH_PROOF_VERSION, TYPE_BATCH_PROOF);
    if |inp| >= 7 {
      assert inp[3..][..4] == inp[3..7] && inp[3..][4..] == inp[7..];
      ProofsPanic(FromBytes(inp[3..7]), inp[7..], FromBytes(inp[..2]));
    }
  }

  // -------------------------------------------------------- Inputs that panic

  /** The size 2^63, and a hash of zeros. */
  const HUGE: seq<byte> := [128, 0, 0, 0, 0, 0, 0, 0]
  const ZEROS: seq<byte> := seq(HASH_LEN, _ => 0)

  lemma ShortNumbers(a: byte, b: byte)
    ensures FromBytes([a]) == a && FromBytes([a, b]) == (a as int) * 256 + b as int
    ensures FromBytes([0, 0, a, b]) == (a as int) * 256 + b as int
  {
    assert [a, b][..1] == [a];
    var z: seq<byte> := [0];
    assert [0, 0, a, b][..3] == [0, 0, a] && [0, 0, a][..2] == [0, 0] && [0, 0][..1] == z && z[..0] == [];
    assert FromBytes(z) == 0;
    assert FromBytes([0, 0]) == 0;
    assert FromBytes([0, 0, a]) == a;
  }

  /** A payload with an empty key and a huge value size. */
  lemma PayloadContentExample()
    ensures PayloadOversized([0, 0, 0, 0] + HUGE, 0)
  {
    var content: seq<byte> := [0, 0, 0, 0] + HUGE;
    ShortNumbers(0, 0);
    assert content[..4] == [0, 0, 0, 0] && content[4..] == HUGE;
  }

  lemma PayloadPanicExample()
    ensures ParsePayload([0, 0, TYPE_PAYLOAD] + ([0, 0, 0, 0] + HUGE)) == Panics
  {
    var content: seq<byte> := [0, 0, 0, 0] + HUGE;
    var inp: seq<byte> := [0, 0, TYPE_PAYLOAD] + content;
    ShortNumbers(0, 0);
    assert inp[..2] == [0, 0] && inp[3..] == content;
    PayloadContentExample();
    PayloadPanics(inp);
  }

  /** The size 12 and the payload above. */
  const ITEM: seq<byte> := [0, 0, 0, 12] + ([0, 0, 0, 0] + HUGE)

  lemma ItemExample()
    ensures PayloadsOversized(1, ITEM, 0)
  {
    ShortNumbers(0, 12);
    assert ITEM[..4] == [0, 0, 0, 12] && ITEM[4..16] == [0, 0, 0, 0] + HUGE;
    PayloadContentExample();
  }

  /** Root hash, one path, the path size and the path. */
  const FRONT: seq<byte> := [0, 32] + ZEROS + ([0, 0, 0, 1] + [0, 32]) + ZEROS

  lemma FrontReads()
    ensures |FRONT| == 72
    ensures FromBytes(FRONT[..2]) == 32 && FromBytes(FRONT[34..38]) == 1 && FromBytes(FRONT[38..40]) == 32
  {
    ShortNumbers(0, 32);
    ShortNumbers(0, 1);
    assert FRONT[..2] == [0, 32] && FRONT[34..38] == [0, 0, 0, 1] && FRONT[38..40] == [0, 32];
  }

  /** An update of one path whose payload is the one above. */
  lemma UpdatePanicExample()
    ensures ParseUpdate([0, 0, TYPE_TRIE_UPDATE] + (FRONT + ITEM)) == Panics
  {
    var content := FRONT + ITEM;
    var inp: seq<byte> := [0, 0, TYPE_TRIE_UPDATE] + content;
    FrontReads();
    ItemExample();
    assert content[..2] == FRONT[..2] && content[34..38] == FRONT[34..38] && content[38..40] == FRONT[38..40];
    assert content[72..] == ITEM;
    ShortNumbers(0, 0);
    assert inp[..2] == [0, 0] && inp[3..] == content;
    UpdatePanics(inp);
  }

  /** A proof without flags, with a huge payload size. */
  lemma ProofPanicExample()
    ensures ParseProof([0, 0, TYPE_PROOF] + ([0, 0, 0] + [0, 32] + ZEROS + HUGE)) == Panics
  {
    var content: seq<byte> := [0, 0, 0] + [0, 32] + ZEROS + HUGE;
    var inp: seq<byte> := [0, 0, TYPE_PROOF] + content;
    ShortNumbers(0, 0);
    ShortNumbers(0, 32);
    assert content[3..5] == [0, 32] && content[37..] == HUGE;
    assert ProofStarts(content) && PastPath(content) == HUGE;
    assert inp[..2] == [0, 0] && inp[3..] == content;
    ProofPanics(inp);
  }

  /** A batch of one proof of huge size. */
  lemma BatchPanicExample()
    ensures ParseBatch([0, 0, TYPE_BATCH_PROOF] + ([0, 0, 0, 1] + HUGE)) == Panics
  {
    var inp: seq<byte> := [0, 0, TYPE_BATCH_PROOF] + ([0, 0, 0, 1] + HUGE);
    ShortNumbers(0, 0);
    ShortNumbers(0, 1);
    assert inp[..2] == [0, 0] && inp[3..7] == [0, 0, 0, 1] && inp[7..] == HUGE;
    assert ProofsOversized(1, HUGE, 0);
    BatchPanics(inp);
  }
}
