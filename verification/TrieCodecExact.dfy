// What the decoders of ledger/trie_encoder.go accept, the converse of the round trips: an input
// decodes to a value exactly when it is laid out as an encoding of that value, with bytes after it.
module TrieCodecExact {
  import opened Bytes
  import opened TrieCodec

  lemma {:induction false} BelowLimit(s: seq<byte>)
    ensures FromBytes(s) < Limit(|s|)
  {
    if s != [] {
      BelowLimit(s[..|s| - 1]);
    }
  }

  lemma ReadUintIs(w: nat, inp: seq<byte>, n: nat, rest: seq<byte>)
    ensures ReadUint(w, inp) == Ok((n, rest)) <==> n < Limit(w) && inp == ToBytes(n, w) + rest
  {
    if n < Limit(w) && inp == ToBytes(n, w) + rest {
      ReadUintOk(w, n, rest);
    }
    if |inp| >= w {
      BelowLimit(inp[..w]);
      ToFromBytes(inp[..w]);
      assert inp == inp[..w] + inp[w..];
    }
  }

  lemma ReadSizedIs(w: nat, inp: seq<byte>, data: seq<byte>, rest: seq<byte>)
    requires w <= 8
    ensures ReadSized(w, inp) == Ok((data, rest)) <==> Fits(w, |data|) && inp == Sized(w, data) + rest
  {
    if Fits(w, |data|) && inp == Sized(w, data) + rest {
      ReadSizedOk(w, data, rest);
    }
    if ReadSized(w, inp) == Ok((data, rest)) {
      var (n, tail) := ReadUint(w, inp).value;
      ReadUintIs(w, inp, n, tail);
      EightBytes();
      assert tail == data + rest;
      assert inp == ToBytes(n, w) + (data + rest) == Sized(w, data) + rest;
    }
  }

  lemma EightBytes()
    ensures Limit(8) == 0x1_0000_0000_0000_0000
  {
    assert Limit(2) == 0x1_0000 && Limit(4) == 0x1_0000_0000 && Limit(6) == 0x1_0000_0000_0000;
  }

  /** A header is accepted exactly when its type is the expected one and its version supported. */
  lemma HeaderIs(inp: seq<byte>, maxVersion: nat, typ: nat, version: nat, content: seq<byte>)
    requires maxVersion < Limit(2) && typ < TYPE_UNSUPPORTED
    ensures CheckHeader(inp, maxVersion, typ) == Ok((version, content)) <==>
      version <= maxVersion && inp == Header(version, typ, content)
  {
    if version <= maxVersion && inp == Header(version, typ, content) {
      assert Limit(2) == 65536;
      HeaderRoundTrip(version, maxVersion, typ, content);
    }
    if CheckHeader(inp, maxVersion, typ) == Ok((version, content)) {
      var (v, rest) := ReadUint(2, inp).value;
      ReadUintIs(2, inp, v, rest);
      ReadUintIs(1, rest, typ, content);
    }
  }

  // ------------------------------------------------------------ lists of blocks

  function Raw(data: seq<byte>): seq<byte> {
    data
  }

  /** Sized blocks, one after the other. */
  function Blocks(w: nat, blocks: seq<seq<byte>>): seq<byte> {
    EncodeItems(w, Raw, blocks)
  }

  /** Every block fits its size field and holds the item of the same index. */
  ghost predicate Hold<T(!new)>(w: nat, dec: seq<byte> -> Outcome<T>, blocks: seq<seq<byte>>, items: seq<T>) {
    |blocks| == |items| && forall i :: 0 <= i < |blocks| ==> Fits(w, |blocks[i]|) && dec(blocks[i]) == Ok(items[i])
  }

  lemma {:induction false} BlocksDecode<T(!new)>(
      w: nat, dec: seq<byte> -> Outcome<T>, blocks: seq<seq<byte>>, items: seq<T>, rest: seq<byte>)
    requires Hold(w, dec, blocks, items)
    ensures DecodeItems(w, dec, |items|, Blocks(w, blocks) + rest) == Ok((items, rest))
  {
    if items == [] {
      assert Blocks(w, blocks) + rest == rest;
    } else {
      var tail := Blocks(w, blocks[1..]) + rest;
      assert Blocks(w, blocks) + rest == Sized(w, blocks[0]) + tail;
      ReadSizedOk(w, blocks[0], tail);
      BlocksDecode(w, dec, blocks[1..], items[1..], rest);
      assert [items[0]] + items[1..] == items;
    }
  }

  lemma {:induction false} DecodedBlocks<T(!new)>(w: nat, dec: seq<byte> -> Outcome<T>, n: nat, inp: seq<byte>)
      returns (blocks: seq<seq<byte>>)
    requires w <= 8 && DecodeItems(w, dec, n, inp).Ok?
    ensures var o := DecodeItems(w, dec, n, inp).value;
      |o.0| == n && Hold(w, dec, blocks, o.0) && inp == Blocks(w, blocks) + o.1
  {
    blocks := [];
    if n > 0 {
      var head := ReadSized(w, inp).value;
      ReadSizedIs(w, inp, head.0, head.1);
      var o := DecodeItems(w, dec, n - 1, head.1);
      var blocks' := DecodedBlocks(w, dec, n - 1, head.1);
      blocks := [head.0] + blocks';
      OneMoreBlock(w, dec, head.0, blocks', dec(head.0).value, o.value.0, o.value.1);
    }
  }

  lemma OneMoreBlock<T(!new)>(
      w: nat, dec: seq<byte> -> Outcome<T>, data: seq<byte>, blocks: seq<seq<byte>>, item: T, items: seq<T>,
      rest: seq<byte>)
    requires Hold(w, dec, blocks, items) && Fits(w, |data|) && dec(data) == Ok(item)
    ensures Hold(w, dec, [data] + blocks, [item] + items)
    ensures Blocks(w, [data] + blocks) + rest == Sized(w, data) + (Blocks(w, blocks) + rest)
  {
    assert ([data] + blocks)[1..] == blocks;
  }

  lemma {:induction false} BlocksOf<T>(w: nat, enc: T -> seq<byte>, items: seq<T>, blocks: seq<seq<byte>>)
    requires |blocks| == |items| && forall i :: 0 <= i < |items| ==> blocks[i] == enc(items[i])
    ensures Blocks(w, blocks) == EncodeItems(w, enc, items)
  {
    if items != [] {
      BlocksOf(w, enc, items[1..], blocks[1..]);
    }
  }

  // ---------------------------------------------------------- keys and payloads

  lemma KeyPartIs(inp: seq<byte>, kp: KeyPart)
    ensures ParseKeyPart(inp) == Ok(kp) <==> kp.typ < Limit(2) && inp == KeyPartBytes(kp)
  {
    ReadUintIs(2, inp, kp.typ, kp.value);
  }

  /** Exactly the inputs that begin with the content of a key decode to it. */
  lemma KeyContentExact(inp: seq<byte>, k: Key)
    ensures ParseKeyContent(inp) == Ok(k) <==> ValidKey(k) && KeyContent(k) <= inp
  {
    if ValidKey(k) && KeyContent(k) <= inp {
      var rest := inp[|KeyContent(k)|..];
      assert inp == KeyContent(k) + rest;
      KeyContentRoundTrip(k, rest);
    }
    if ParseKeyContent(inp) == Ok(k) {
      DecodedKey(inp, k);
    }
  }

  lemma DecodedKey(inp: seq<byte>, k: Key)
    requires ParseKeyContent(inp) == Ok(k)
    ensures ValidKey(k) && KeyContent(k) <= inp
  {
    var head := ReadUint(2, inp).value;
    ReadUintIs(2, inp, head.0, head.1);
    DecodedParts(head.0, head.1, k);
    var items, rest := EncodeItems(4, KeyPartBytes, k.parts), DecodeItems(4, ParseKeyPart, head.0, head.1).value.1;
    Regroup(inp, ToBytes(head.0, 2), items, rest);
  }

  lemma Regroup(inp: seq<byte>, a: seq<byte>, b: seq<byte>, rest: seq<byte>)
    requires inp == a + (b + rest)
    ensures a + b <= inp
  {
    assert inp == a + b + rest;
  }

  lemma DecodedParts(n: nat, inp: seq<byte>, k: Key)
    requires n < Limit(2)
    requires DecodeItems(4, ParseKeyPart, n, inp).Ok? && DecodeItems(4, ParseKeyPart, n, inp).value.0 == k.parts
    ensures |k.parts| == n && ValidKey(k)
    ensures inp == EncodeItems(4, KeyPartBytes, k.parts) + DecodeItems(4, ParseKeyPart, n, inp).value.1
  {
    var blocks := DecodedBlocks(4, ParseKeyPart, n, inp);
    forall i | 0 <= i < |k.parts|
      ensures k.parts[i].typ < Limit(2) && blocks[i] == KeyPartBytes(k.parts[i]) && |k.parts[i].value| + 2 < Limit(4)
    {
      KeyPartIs(blocks[i], k.parts[i]);
    }
    BlocksOf(4, KeyPartBytes, k.parts, blocks);
  }

  lemma KeyExact(inp: seq<byte>, k: Key)
    ensures ParseKey(inp) == Ok(k) <==>
      ValidKey(k) && exists v: nat :: v <= PAYLOAD_VERSION && Header(v, TYPE_KEY, KeyContent(k)) <= inp
  {
    assert Limit(2) == 65536;
    if ParseKey(inp) == Ok(k) {
      var (v, content) := CheckHeader(inp, PAYLOAD_VERSION, TYPE_KEY).value;
      HeaderIs(inp, PAYLOAD_VERSION, TYPE_KEY, v, content);
      KeyContentExact(content, k);
      HeaderPrefix(v, TYPE_KEY, KeyContent(k), content);
    }
    if v: nat :| v <= PAYLOAD_VERSION && Header(v, TYPE_KEY, KeyContent(k)) <= inp {
      if ValidKey(k) {
        var content := WithoutHeader(v, TYPE_KEY, KeyContent(k), inp);
        HeaderIs(inp, PAYLOAD_VERSION, TYPE_KEY, v, content);
        KeyContentExact(content, k);
      }
    }
  }

  lemma HeaderPrefix(v: nat, typ: nat, a: seq<byte>, b: seq<byte>)
    requires a <= b
    ensures Header(v, typ, a) <= Header(v, typ, b)
  {
    assert b == a + b[|a|..];
    assert Header(v, typ, b) == Header(v, typ, a) + b[|a|..];
  }

  lemma WithoutHeader(v: nat, typ: nat, a: seq<byte>, inp: seq<byte>) returns (content: seq<byte>)
    requires Header(v, typ, a) <= inp
    ensures inp == Header(v, typ, content) && a <= content
  {
    var rest := inp[|Header(v, typ, a)|..];
    content := a + rest;
    assert inp == Header(v, typ, a) + rest == Header(v, typ, content);
  }

  /** Exactly the inputs that begin with the content of a payload decode to it, in either version. */
  lemma PayloadContentExact(inp: seq<byte>, version: nat, p: Payload)
    ensures ParsePayloadContent(inp, version) == Ok(p) <==>
      ValidPayload(p, version) && PayloadContent(p, version) <= inp
  {
    var w := ValueWidth(version);
    if ValidPayload(p, version) && PayloadContent(p, version) <= inp {
      var rest := inp[|PayloadContent(p, version)|..];
      assert inp == Sized(4, p.encKey) + (Sized(w, p.value) + rest);
      ReadSizedOk(4, p.encKey, Sized(w, p.value) + rest);
      ReadSizedOk(w, p.value, rest);
    }
    if ParsePayloadContent(inp, version) == Ok(p) {
      var (encKey, tail) := ReadSized(4, inp).value;
      var (value, rest) := ReadSized(w, tail).value;
      ReadSizedIs(4, inp, encKey, tail);
      ReadSizedIs(w, tail, value, rest);
      assert inp == PayloadContent(p, version) + rest;
    }
  }

  lemma PayloadExact(inp: seq<byte>, p: Payload)
    ensures ParsePayload(inp) == Ok(None) <==> inp == []
    ensures ParsePayload(inp) == Ok(Some(p)) <==>
      exists v: nat ::
        v <= PAYLOAD_VERSION && ValidPayload(p, v) && Header(v, TYPE_PAYLOAD, PayloadContent(p, v)) <= inp
  {
    assert Limit(2) == 65536;
    if ParsePayload(inp) == Ok(Some(p)) {
      var (v, content) := CheckHeader(inp, PAYLOAD_VERSION, TYPE_PAYLOAD).value;
      HeaderIs(inp, PAYLOAD_VERSION, TYPE_PAYLOAD, v, content);
      PayloadContentExact(content, v, p);
      HeaderPrefix(v, TYPE_PAYLOAD, PayloadContent(p, v), content);
    }
    if v: nat :| v <= PAYLOAD_VERSION && ValidPayload(p, v) && Header(v, TYPE_PAYLOAD, PayloadContent(p, v)) <= inp {
      var content := WithoutHeader(v, TYPE_PAYLOAD, PayloadContent(p, v), inp);
      HeaderIs(inp, PAYLOAD_VERSION, TYPE_PAYLOAD, v, content);
      PayloadContentExact(content, v, p);
    }
  }

  // ---------------------------------------------------------------- trie updates

  lemma {:induction false} ParsedPaths(n: nat, size: nat, inp: seq<byte>)
    requires ParsePaths(n, size, inp).Ok?
    ensures var o := ParsePaths(n, size, inp).value;
      |o.0| == n && AllHashes(o.0) && (n > 0 ==> size == HASH_LEN) && inp == PathBytes(o.0) + o.1
  {
    if n > 0 {
      ParsedPaths(n - 1, size, inp[size..]);
      var o, o' := ParsePaths(n, size, inp).value, ParsePaths(n - 1, size, inp[size..]).value;
      assert o.0[1..] == o'.0;
      assert inp == inp[..size] + (PathBytes(o'.0) + o.1);
    }
  }

  /** Payloads in blocks, each perhaps followed by bytes that are ignored. */
  ghost predicate HoldPayloads(version: nat, blocks: seq<seq<byte>>, payloads: seq<Payload>) {
    |blocks| == |payloads| && forall i :: 0 <= i < |blocks| ==>
      && Fits(4, |blocks[i]|) && ValidPayload(payloads[i], version)
      && PayloadContent(payloads[i], version) <= blocks[i]
  }

  /** How an input that decodes to the update t is laid out; the path size matters only if there is a path. */
  ghost predicate IsUpdate(
      inp: seq<byte>, version: nat, t: TrieUpdate, size: nat, blocks: seq<seq<byte>>, rest: seq<byte>) {
    && |t.rootHash| == HASH_LEN && AllHashes(t.paths) && size < Limit(2) && (t.paths != [] ==> size == HASH_LEN)
    && |t.paths| == |t.payloads| < Limit(4) && HoldPayloads(version, blocks, t.payloads)
    && inp == Sized(2, t.rootHash) + (ToBytes(|t.paths|, 4) +
                (ToBytes(size, 2) + (PathBytes(t.paths) + (Blocks(4, blocks) + rest))))
  }

  lemma UpdateDecodes(inp: seq<byte>, version: nat, t: TrieUpdate, size: nat, blocks: seq<seq<byte>>, rest: seq<byte>)
    requires IsUpdate(inp, version, t, size, blocks, rest)
    ensures ParseUpdateContent(inp, version) == Ok(t)
  {
    var dec := (b: seq<byte>) => ParsePayloadContent(b, version);
    var afterPaths := Blocks(4, blocks) + rest;
    var afterSize := PathBytes(t.paths) + afterPaths;
    var afterCount := ToBytes(size, 2) + afterSize;
    assert Limit(2) == 65536;
    ReadSizedOk(2, t.rootHash, ToBytes(|t.paths|, 4) + afterCount);
    ReadUintOk(4, |t.paths|, afterCount);
    ReadUintOk(2, size, afterSize);
    if t.paths == [] {
      assert afterSize == afterPaths;
    } else {
      PathsRoundTrip(t.paths, afterPaths);
    }
    forall i | 0 <= i < |blocks|
      ensures Fits(4, |blocks[i]|) && dec(blocks[i]) == Ok(t.payloads[i])
    {
      PayloadContentExact(blocks[i], version, t.payloads[i]);
    }
    BlocksDecode(4, dec, blocks, t.payloads, rest);
  }

  lemma DecodedUpdate(inp: seq<byte>, version: nat, t: TrieUpdate)
      returns (size: nat, blocks: seq<seq<byte>>, rest: seq<byte>)
    requires ParseUpdateContent(inp, version) == Ok(t)
    ensures IsUpdate(inp, version, t, size, blocks, rest)
  {
    var hash := ReadSized(2, inp).value;
    ReadSizedIs(2, inp, hash.0, hash.1);
    var count := ReadUint(4, hash.1).value;
    ReadUintIs(4, hash.1, count.0, count.1);
    size, blocks, rest := DecodedTail(t, count.0, count.1, version);
  }

  /** The part of an update after the number of paths. */
  lemma DecodedTail(t: TrieUpdate, n: nat, inp: seq<byte>, version: nat)
      returns (size: nat, blocks: seq<seq<byte>>, rest: seq<byte>)
    requires ParseUpdateTail(t.rootHash, n, inp, version) == Ok(t)
    ensures |t.paths| == |t.payloads| == n && AllHashes(t.paths) && size < Limit(2)
    ensures (n > 0 ==> size == HASH_LEN) && HoldPayloads(version, blocks, t.payloads)
    ensures inp == ToBytes(size, 2) + (PathBytes(t.paths) + (Blocks(4, blocks) + rest))
  {
    var dec := (b: seq<byte>) => ParsePayloadContent(b, version);
    var head := ReadUint(2, inp).value;
    size := head.0;
    ReadUintIs(2, inp, size, head.1);
    var paths := ParsePaths(n, size, head.1).value;
    ParsedPaths(n, size, head.1);
    rest := DecodeItems(4, dec, n, paths.1).value.1;
    blocks := DecodedBlocks(4, dec, n, paths.1);
    forall i | 0 <= i < |blocks|
      ensures ValidPayload(t.payloads[i], version) && PayloadContent(t.payloads[i], version) <= blocks[i]
    {
      PayloadContentExact(blocks[i], version, t.payloads[i]);
    }
  }

  ghost predicate EncodesUpdate(inp: seq<byte>, version: nat, t: TrieUpdate) {
    exists size, blocks, rest :: IsUpdate(inp, version, t, size, blocks, rest)
  }

  /** Exactly the inputs of that layout, with the type of an update and a supported version, decode to it. */
  lemma UpdateExact(inp: seq<byte>, t: TrieUpdate)
    ensures ParseUpdate(inp) == Ok(None) <==> inp == []
    ensures ParseUpdate(inp) == Ok(Some(t)) <==>
      exists v: nat, content ::
        v <= UPDATE_VERSION && inp == Header(v, TYPE_TRIE_UPDATE, content) && EncodesUpdate(content, v, t)
  {
    assert Limit(2) == 65536;
    if ParseUpdate(inp) == Ok(Some(t)) {
      var (v, content) := CheckHeader(inp, UPDATE_VERSION, TYPE_TRIE_UPDATE).value;
      HeaderIs(inp, UPDATE_VERSION, TYPE_TRIE_UPDATE, v, content);
      var size, blocks, rest := DecodedUpdate(content, v, t);
    }
    if v: nat, content :|
        v <= UPDATE_VERSION && inp == Header(v, TYPE_TRIE_UPDATE, content) && EncodesUpdate(content, v, t) {
      HeaderIs(inp, UPDATE_VERSION, TYPE_TRIE_UPDATE, v, content);
      var size, blocks, rest :| IsUpdate(content, v, t, size, blocks, rest);
      UpdateDecodes(content, v, t, size, blocks, rest);
    }
  }

  // ---------------------------------------------------------------------- proofs

  /** How an input that decodes to the proof p is laid out: the flag is the top bit of the first byte. */
  ghost predicate IsProof(inp: seq<byte>, version: nat, p: Proof, first: byte, block: seq<byte>, rest: seq<byte>) {
    && (first >= 128 <==> p.inclusion) && p.steps < Limit(1) && Fits(1, |p.flags|) && |p.path| == HASH_LEN
    && Fits(8, |block|) && ValidPayload(p.payload, version) && PayloadContent(p.payload, version) <= block
    && |p.interims| < Limit(1) && AllHashes(p.interims)
    && inp == [first] + (ToBytes(p.steps, 1) + (Sized(1, p.flags) + (Sized(2, p.path) +
                (Sized(8, block) + (InterimBytes(p) + rest)))))
  }

  lemma InterimsDecode(p: Proof, rest: seq<byte>)
    requires |p.interims| < Limit(1) && AllHashes(p.interims)
    ensures ParseInterims(InterimBytes(p) + rest) == Ok(p.interims)
  {
    assert Limit(2) == 65536;
    var items := EncodeItems(2, Interim, p.interims);
    assert InterimBytes(p) + rest == ToBytes(|p.interims|, 1) + (items + rest);
    ReadUintOk(1, |p.interims|, items + rest);
    forall i | 0 <= i < |p.interims|
      ensures Inverts(2, Interim, ToHash, p.interims[i])
    {
    }
    ItemsRoundTrip(2, Interim, ToHash, p.interims, rest);
  }

  lemma DecodedHashes(n: nat, inp: seq<byte>, hashes: seq<seq<byte>>)
    requires DecodeItems(2, ToHash, n, inp).Ok? && DecodeItems(2, ToHash, n, inp).value.0 == hashes
    ensures |hashes| == n && AllHashes(hashes)
    ensures inp == EncodeItems(2, Interim, hashes) + DecodeItems(2, ToHash, n, inp).value.1
  {
    var blocks := DecodedBlocks(2, ToHash, n, inp);
    BlocksOf(2, Interim, hashes, blocks);
  }

  lemma DecodedInterims(inp: seq<byte>, p: Proof) returns (rest: seq<byte>)
    requires ParseInterims(inp) == Ok(p.interims)
    ensures |p.interims| < Limit(1) && AllHashes(p.interims) && inp == InterimBytes(p) + rest
  {
    var head := ReadUint(1, inp).value;
    ReadUintIs(1, inp, head.0, head.1);
    DecodedHashes(head.0, head.1, p.interims);
    rest := DecodeItems(2, ToHash, head.0, head.1).value.1;
  }

  lemma ProofDecodes(inp: seq<byte>, version: nat, p: Proof, first: byte, block: seq<byte>, rest: seq<byte>)
    requires IsProof(inp, version, p, first, block, rest)
    ensures ParseProofContent(inp, version) == Ok(p)
  {
    assert Limit(2) == 65536;
    var f := InterimBytes(p) + rest;
    var e := Sized(8, block) + f;
    var d := Sized(2, p.path) + e;
    var c := Sized(1, p.flags) + d;
    var b := ToBytes(p.steps, 1) + c;
    assert inp[..1] == [first] && inp[1..] == b;
    ReadUintOk(1, p.steps, c);
    ReadSizedOk(1, p.flags, d);
    ReadSizedOk(2, p.path, e);
    ReadSizedOk(8, block, f);
    PayloadContentExact(block, version, p.payload);
    InterimsDecode(p, rest);
  }

  lemma DecodedProof(inp: seq<byte>, version: nat, p: Proof) returns (first: byte, block: seq<byte>, rest: seq<byte>)
    requires ParseProofContent(inp, version) == Ok(p)
    ensures IsProof(inp, version, p, first, block, rest)
  {
    var afterSteps, tail := ProofStages(inp, version, p);
    ProofFront(inp, p.steps, afterSteps, p.flags, tail);
    first := inp[0];
    block, rest := DecodedEnd(tail, version, p);
  }

  lemma ProofStages(inp: seq<byte>, version: nat, p: Proof) returns (afterSteps: seq<byte>, tail: seq<byte>)
    requires ParseProofContent(inp, version) == Ok(p)
    ensures inp != [] && (p.inclusion <==> inp[0] >= 128) && ReadUint(1, inp[1..]) == Ok((p.steps, afterSteps))
    ensures ReadSized(1, afterSteps) == Ok((p.flags, tail)) && ParsesEnd(tail, version, p)
  {
    afterSteps := ReadUint(1, inp[1..]).value.1;
    tail := ReadSized(1, afterSteps).value.1;
  }

  lemma ProofFront(inp: seq<byte>, steps: nat, afterSteps: seq<byte>, flags: seq<byte>, tail: seq<byte>)
    requires inp != [] && ReadUint(1, inp[1..]) == Ok((steps, afterSteps))
    requires ReadSized(1, afterSteps) == Ok((flags, tail))
    ensures steps < Limit(1) && Fits(1, |flags|)
    ensures inp == [inp[0]] + (ToBytes(steps, 1) + (Sized(1, flags) + tail))
  {
    ReadUintIs(1, inp[1..], steps, afterSteps);
    ReadSizedIs(1, afterSteps, flags, tail);
  }

  /** The path, the payload and the interim hashes at the end of a proof. */
  predicate ParsesEnd(inp: seq<byte>, version: nat, p: Proof) {
    && ReadSized(2, inp).Ok? && ToHash(ReadSized(2, inp).value.0) == Ok(p.path)
    && var o := ReadSized(8, ReadSized(2, inp).value.1);
    o.Ok? && ParsePayloadContent(o.value.0, version) == Ok(p.payload) && ParseInterims(o.value.1) == Ok(p.interims)
  }

  lemma DecodedEnd(inp: seq<byte>, version: nat, p: Proof) returns (block: seq<byte>, rest: seq<byte>)
    requires ParsesEnd(inp, version, p)
    ensures |p.path| == HASH_LEN && Fits(8, |block|)
    ensures ValidPayload(p.payload, version) && PayloadContent(p.payload, version) <= block
    ensures |p.interims| < Limit(1) && AllHashes(p.interims)
    ensures inp == Sized(2, p.path) + (Sized(8, block) + (InterimBytes(p) + rest))
  {
    var path := ReadSized(2, inp).value;
    ReadSizedIs(2, inp, path.0, path.1);
    var payload := ReadSized(8, path.1).value;
    block := payload.0;
    ReadSizedIs(8, path.1, block, payload.1);
    PayloadContentExact(block, version, p.payload);
    rest := DecodedInterims(payload.1, p);
  }

  ghost predicate EncodesProof(inp: seq<byte>, version: nat, p: Proof) {
    exists first, block, rest :: IsProof(inp, version, p, first, block, rest)
  }

  lemma ProofContentExact(inp: seq<byte>, version: nat, p: Proof)
    ensures ParseProofContent(inp, version) == Ok(p) <==> EncodesProof(inp, version, p)
  {
    if EncodesProof(inp, version, p) {
      var first, block, rest :| IsProof(inp, version, p, first, block, rest);
      ProofDecodes(inp, version, p, first, block, rest);
    }
    if ParseProofContent(inp, version) == Ok(p) {
      var first, block, rest := DecodedProof(inp, version, p);
    }
  }

  /** Exactly the inputs of that layout, with the type of a proof and a supported version, decode to it. */
  lemma ProofExact(inp: seq<byte>, p: Proof)
    ensures ParseProof(inp) == Ok(p) <==>
      exists v: nat, content :: v <= PROOF_VERSION && inp == Header(v, TYPE_PROOF, content) &&
        EncodesProof(content, v, p)
  {
    assert Limit(2) == 65536;
    if ParseProof(inp) == Ok(p) {
      var (v, content) := CheckHeader(inp, PROOF_VERSION, TYPE_PROOF).value;
      HeaderIs(inp, PROOF_VERSION, TYPE_PROOF, v, content);
      ProofContentExact(content, v, p);
    }
    if v: nat, content :| v <= PROOF_VERSION && inp == Header(v, TYPE_PROOF, content) && EncodesProof(content, v, p) {
      HeaderIs(inp, PROOF_VERSION, TYPE_PROOF, v, content);
      ProofContentExact(content, v, p);
    }
  }

  // ---------------------------------------------------------------- batch proofs

  ghost predicate IsBatch(
      inp: seq<byte>, version: nat, proofs: seq<Proof>, blocks: seq<seq<byte>>, rest: seq<byte>) {
    && |blocks| == |proofs| < Limit(4)
    && (forall i :: 0 <= i < |blocks| ==> Fits(8, |blocks[i]|) && EncodesProof(blocks[i], version, proofs[i]))
    && inp == ToBytes(|proofs|, 4) + (Blocks(8, blocks) + rest)
  }

  lemma BatchDecodes(inp: seq<byte>, version: nat, proofs: seq<Proof>, blocks: seq<seq<byte>>, rest: seq<byte>)
    requires IsBatch(inp, version, proofs, blocks, rest)
    ensures ParseBatchContent(inp, version) == Ok(proofs)
  {
    var dec := (b: seq<byte>) => ParseProofContent(b, version);
    ReadUintOk(4, |proofs|, Blocks(8, blocks) + rest);
    forall i | 0 <= i < |blocks|
      ensures dec(blocks[i]) == Ok(proofs[i])
    {
      ProofContentExact(blocks[i], version, proofs[i]);
    }
    BlocksDecode(8, dec, blocks, proofs, rest);
  }

  lemma DecodedBatch(inp: seq<byte>, version: nat, proofs: seq<Proof>)
      returns (blocks: seq<seq<byte>>, rest: seq<byte>)
    requires ParseBatchContent(inp, version) == Ok(proofs)
    ensures IsBatch(inp, version, proofs, blocks, rest)
  {
    var dec := (b: seq<byte>) => ParseProofContent(b, version);
    var head := ReadUint(4, inp).value;
    ReadUintIs(4, inp, head.0, head.1);
    rest := DecodeItems(8, dec, head.0, head.1).value.1;
    blocks := DecodedBlocks(8, dec, head.0, head.1);
    forall i | 0 <= i < |blocks|
      ensures EncodesProof(blocks[i], version, proofs[i])
    {
      ProofContentExact(blocks[i], version, proofs[i]);
    }
  }

  ghost predicate EncodesBatch(inp: seq<byte>, version: nat, proofs: seq<Proof>) {
    exists blocks, rest :: IsBatch(inp, version, proofs, blocks, rest)
  }

  /** Exactly the counted lists of sized proofs, with the type of a batch and a supported version, decode to it. */
  lemma BatchExact(inp: seq<byte>, proofs: seq<Proof>)
    ensures ParseBatch(inp) == Ok(proofs) <==>
      exists v: nat, content ::
        v <= BATCH_PROOF_VERSION && inp == Header(v, TYPE_BATCH_PROOF, content) && EncodesBatch(content, v, proofs)
  {
    assert Limit(2) == 65536;
    if ParseBatch(inp) == Ok(proofs) {
      var (v, content) := CheckHeader(inp, BATCH_PROOF_VERSION, TYPE_BATCH_PROOF).value;
      HeaderIs(inp, BATCH_PROOF_VERSION, TYPE_BATCH_PROOF, v, content);
      var blocks, rest := DecodedBatch(content, v, proofs);
    }
    if v: nat, content :|
        v <= BATCH_PROOF_VERSION && inp == Header(v, TYPE_BATCH_PROOF, content) && EncodesBatch(content, v, proofs) {
      HeaderIs(inp, BATCH_PROOF_VERSION, TYPE_BATCH_PROOF, v, content);
      var blocks, rest :| IsBatch(content, v, proofs, blocks, rest);
      BatchDecodes(content, v, proofs, blocks, rest);
    }
  }
}
