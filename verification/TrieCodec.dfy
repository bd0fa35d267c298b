// The binary formats of ledger/trie_encoder.go: keys, payloads in two versions,
// trie updates, proofs and batch proofs, with nested length prefixes.
module TrieCodec {
  import opened ModArith
  import opened Bytes

  /** A decoder's result: a value, an error, or a runtime panic. */
  datatype Outcome<+T> = Ok(value: T) | Error | Panics {
    predicate IsFailure() {
      !Ok?
    }

    function PropagateFailure<U>(): Outcome<U>
      requires IsFailure()
    {
      if Error? then Error else Panics
    }

    function Extract(): T
      requires Ok?
    {
      value
    }
  }

  const HASH_LEN := 32
  const PAYLOAD_VERSION: nat := 1
  const UPDATE_VERSION: nat := 0
  const PROOF_VERSION: nat := 0
  const BATCH_PROOF_VERSION: nat := 0
  const TYPE_KEY: nat := 3
  const TYPE_PAYLOAD: nat := 6
  const TYPE_PROOF: nat := 7
  const TYPE_BATCH_PROOF: nat := 8
  const TYPE_TRIE_UPDATE: nat := 11
  const TYPE_UNSUPPORTED: nat := 12

  /** One past the largest value of a w-byte field. */
  function Limit(w: nat): (m: nat)
    ensures m > 0
  {
    if w == 0 then 1 else 256 * Limit(w - 1)
  }

  lemma {:induction false} LimitIsPow(w: nat)
    ensures Limit(w) == Pow(256, w)
  {
    if w > 0 {
      LimitIsPow(w - 1);
    }
  }

  // ---------------------------------------------------------- Reading primitives

  /** utils.ReadUint8, ReadUint16, ReadUint32 and ReadUint64 */
  function ReadUint(w: nat, inp: seq<byte>): Outcome<(nat, seq<byte>)> {
    if |inp| < w then Error else Ok((FromBytes(inp[..w]), inp[w..]))
  }

  /** The conversion of a w-byte unsigned size to a 64-bit int. */
  function ToInt(n: nat, w: nat): int {
    if w == 8 && n >= 0x8000_0000_0000_0000 then n - 0x1_0000_0000_0000_0000 else n
  }

  /** utils.ReadSlice */
  function ReadSlice(inp: seq<byte>, size: int): Outcome<(seq<byte>, seq<byte>)> {
    if |inp| < size then Error else if size < 0 then Panics else Ok((inp[..size], inp[size..]))
  }

  /** A size field of w bytes followed by that many bytes. */
  function ReadSized(w: nat, inp: seq<byte>): Outcome<(seq<byte>, seq<byte>)> {
    var (size, rest) :- ReadUint(w, inp);
    ReadSlice(rest, ToInt(size, w))
  }

  function Sized(w: nat, data: seq<byte>): seq<byte> {
    ToBytes(|data|, w) + data
  }

  /** The data fits a w-byte size field. */
  predicate Fits(w: nat, n: nat) {
    n < Limit(w) && (w == 8 ==> n < 0x8000_0000_0000_0000)
  }

  lemma ReadUintOk(w: nat, n: nat, rest: seq<byte>)
    requires n < Limit(w)
    ensures ReadUint(w, ToBytes(n, w) + rest) == Ok((n, rest))
  {
    LimitIsPow(w);
    FromToSmall(n, w);
    assert (ToBytes(n, w) + rest)[..w] == ToBytes(n, w);
  }

  lemma ReadSizedOk(w: nat, data: seq<byte>, rest: seq<byte>)
    requires Fits(w, |data|)
    ensures ReadSized(w, Sized(w, data) + rest) == Ok((data, rest))
  {
    assert Sized(w, data) + rest == ToBytes(|data|, w) + (data + rest);
    ReadUintOk(w, |data|, data + rest);
  }

  // ---------------------------------------------------------- Lists of sized items

  /** The encodings of the items, each after its size. */
  function EncodeItems<T>(w: nat, enc: T -> seq<byte>, items: seq<T>): seq<byte> {
    if items == [] then [] else Sized(w, enc(items[0])) + EncodeItems(w, enc, items[1..])
  }

  function DecodeItems<T>(w: nat, dec: seq<byte> -> Outcome<T>, n: nat, inp: seq<byte>): Outcome<(seq<T>, seq<byte>)> {
    if n == 0 then Ok(([], inp)) else
      var (data, rest) :- ReadSized(w, inp);
      var item :- dec(data);
      var (items, rest') :- DecodeItems(w, dec, n - 1, rest);
      Ok(([item] + items, rest'))
  }

  /** Decoding undoes the encoding of one item. */
  ghost predicate Inverts<T>(w: nat, enc: T -> seq<byte>, dec: seq<byte> -> Outcome<T>, item: T) {
    Fits(w, |enc(item)|) && dec(enc(item)) == Ok(item)
  }

  lemma {:induction false} ItemsRoundTrip<T>(
      w: nat, enc: T -> seq<byte>, dec: seq<byte> -> Outcome<T>, items: seq<T>, rest: seq<byte>)
    requires forall i :: 0 <= i < |items| ==> Inverts(w, enc, dec, items[i])
    ensures DecodeItems(w, dec, |items|, EncodeItems(w, enc, items) + rest) == Ok((items, rest))
  {
    if items == [] {
      assert EncodeItems(w, enc, items) + rest == rest;
    } else {
      var tail := EncodeItems(w, enc, items[1..]) + rest;
      assert EncodeItems(w, enc, items) + rest == Sized(w, enc(items[0])) + tail;
      assert Inverts(w, enc, dec, items[0]);
      ReadSizedOk(w, enc(items[0]), tail);
      ItemsRoundTrip(w, enc, dec, items[1..], rest);
      assert [items[0]] + items[1..] == items;
    }
  }

  /** The loop that appends sized items to a buffer. */
  method AppendItems<T>(buffer: seq<byte>, w: nat, enc: T -> seq<byte>, items: seq<T>) returns (b: seq<byte>)
    ensures b == buffer + EncodeItems(w, enc, items)
  {
    b := buffer;
    for i := 0 to |items|
      invariant b + EncodeItems(w, enc, items[i..]) == buffer + EncodeItems(w, enc, items)
    {
      var data := enc(items[i]);
      assert items[i..][1..] == items[i + 1..];
      ghost var tail := EncodeItems(w, enc, items[i + 1..]);
      assert b + (Sized(w, data) + tail) == b + ToBytes(|data|, w) + data + tail;
      b := b + ToBytes(|data|, w);
      b := b + data;
    }
    assert items[|items|..] == [];
  }

  /** The items read before, put in front of the rest. */
  function Prepend<T>(done: seq<T>, o: Outcome<(seq<T>, seq<byte>)>): Outcome<(seq<T>, seq<byte>)> {
    match o
    case Ok(p) => Ok((done + p.0, p.1))
    case Error => Error
    case Panics => Panics
  }

  /** The loop that reads n sized items. */
  method ReadItems<T>(w: nat, dec: seq<byte> -> Outcome<T>, n: nat, inp: seq<byte>)
      returns (o: Outcome<(seq<T>, seq<byte>)>)
    ensures o == DecodeItems(w, dec, n, inp)
  {
    var items: seq<T>, rest := [], inp;
    PrependNothing(DecodeItems(w, dec, n, inp));
    for i := 0 to n
      invariant DecodeItems(w, dec, n, inp) == Prepend(items, DecodeItems(w, dec, n - i, rest))
    {
      var slice := ReadSized(w, rest);
      if !slice.Ok? {
        return slice.PropagateFailure();
      }
      var item := dec(slice.value.0);
      if !item.Ok? {
        return item.PropagateFailure();
      }
      PrependOne(items, item.value, DecodeItems(w, dec, n - i - 1, slice.value.1));
      items, rest := items + [item.value], slice.value.1;
    }
    assert items + [] == items;
    o := Ok((items, rest));
  }

  lemma PrependNothing<T>(o: Outcome<(seq<T>, seq<byte>)>)
    ensures Prepend([], o) == o
  {
    if o.Ok? {
      assert [] + o.value.0 == o.value.0;
    }
  }

  lemma PrependOne<T>(done: seq<T>, item: T, o: Outcome<(seq<T>, seq<byte>)>)
    ensures Prepend(done, Prepend([item], o)) == Prepend(done + [item], o)
  {
    if o.Ok? {
      assert done + ([item] + o.value.0) == done + [item] + o.value.0;
    }
  }

  // ------------------------------------------------------------------- Header

  function Header(version: nat, typ: nat, content: seq<byte>): seq<byte> {
    ToBytes(version, 2) + (ToBytes(typ, 1) + content)
  }

  /** CheckVersion, then CheckType */
  function CheckHeader(inp: seq<byte>, maxVersion: nat, typ: nat): Outcome<(nat, seq<byte>)> {
    var (version, rest) :- ReadUint(2, inp);
    if version > maxVersion then Error else
      var (t, content) :- ReadUint(1, rest);
      if t >= TYPE_UNSUPPORTED || t != typ then Error else Ok((version, content))
  }

  lemma HeaderRoundTrip(version: nat, maxVersion: nat, typ: nat, content: seq<byte>)
    requires version <= maxVersion < 65536 && typ < TYPE_UNSUPPORTED
    ensures CheckHeader(Header(version, typ, content), maxVersion, typ) == Ok((version, content))
  {
    assert Limit(1) == 256 && Limit(2) == 65536;
    ReadUintOk(2, version, ToBytes(typ, 1) + content);
    ReadUintOk(1, typ, content);
  }

  // --------------------------------------------------------------------- Keys

  datatype KeyPart = KeyPart(typ: nat, value: seq<byte>)
  datatype Key = Key(parts: seq<KeyPart>)

  function KeyPartBytes(kp: KeyPart): seq<byte> {
    ToBytes(kp.typ, 2) + kp.value
  }

  function ParseKeyPart(inp: seq<byte>): Outcome<KeyPart> {
    var (typ, value) :- ReadUint(2, inp);
    Ok(KeyPart(typ, value))
  }

  function KeyContent(k: Key): seq<byte> {
    ToBytes(|k.parts|, 2) + EncodeItems(4, KeyPartBytes, k.parts)
  }

  function ParseKeyContent(inp: seq<byte>): Outcome<Key> {
    var (n, rest) :- ReadUint(2, inp);
    var (parts, _) :- DecodeItems(4, ParseKeyPart, n, rest);
    Ok(Key(parts))
  }

  /** Counts and lengths fit their fields. */
  ghost predicate ValidKey(k: Key) {
    && |k.parts| < Limit(2)
    && forall i :: 0 <= i < |k.parts| ==> k.parts[i].typ < Limit(2) && |k.parts[i].value| + 2 < Limit(4)
  }

  /** The content of a key decodes to the key, whatever follows it. */
  lemma KeyContentRoundTrip(k: Key, rest: seq<byte>)
    requires ValidKey(k)
    ensures ParseKeyContent(KeyContent(k) + rest) == Ok(k)
  {
    forall i | 0 <= i < |k.parts|
      ensures Inverts(4, KeyPartBytes, ParseKeyPart, k.parts[i])
    {
      ReadUintOk(2, k.parts[i].typ, k.parts[i].value);
    }
    ItemsRoundTrip(4, KeyPartBytes, ParseKeyPart, k.parts, rest);
    assert KeyContent(k) + rest == ToBytes(|k.parts|, 2) + (EncodeItems(4, KeyPartBytes, k.parts) + rest);
    ReadUintOk(2, |k.parts|, EncodeItems(4, KeyPartBytes, k.parts) + rest);
  }

  function KeyBytes(k: Key): seq<byte> {
    Header(PAYLOAD_VERSION, TYPE_KEY, KeyContent(k))
  }

  function ParseKey(inp: seq<byte>): Outcome<Key> {
    var (_, content) :- CheckHeader(inp, PAYLOAD_VERSION, TYPE_KEY);
    ParseKeyContent(content)
  }

  lemma KeyRoundTrip(k: Key)
    requires ValidKey(k)
    ensures ParseKey(KeyBytes(k)) == Ok(k)
  {
    HeaderRoundTrip(PAYLOAD_VERSION, PAYLOAD_VERSION, TYPE_KEY, KeyContent(k));
    KeyContentRoundTrip(k, []);
    assert KeyContent(k) + [] == KeyContent(k);
  }

  /** EncodeKey */
  method EncodeKey(k: Key) returns (b: seq<byte>)
    ensures b == KeyBytes(k)
  {
    var content := AppendItems(ToBytes(|k.parts|, 2), 4, KeyPartBytes, k.parts);
    b := WithHeader(PAYLOAD_VERSION, TYPE_KEY, content);
  }

  /** The version and type in front of a content. */
  method WithHeader(version: nat, typ: nat, content: seq<byte>) returns (b: seq<byte>)
    ensures b == Header(version, typ, content)
  {
    b := ToBytes(version, 2);
    b := b + ToBytes(typ, 1);
    b := b + content;
    assert b == ToBytes(version, 2) + (ToBytes(typ, 1) + content);
  }

  /** DecodeKey */
  method DecodeKey(inp: seq<byte>) returns (o: Outcome<Key>)
    ensures o == ParseKey(inp)
  {
    var header :- CheckHeader(inp, PAYLOAD_VERSION, TYPE_KEY);
    var count :- ReadUint(2, header.1);
    var parts := ReadItems(4, ParseKeyPart, count.0, count.1);
    o := if parts.Ok? then Ok(Key(parts.value.0)) else parts.PropagateFailure();
  }

  // ------------------------------------------------------------------ Payloads

  datatype Payload = Payload(encKey: seq<byte>, value: seq<byte>)

  /** Version 0 has an 8-byte value size, later versions a 4-byte one. */
  function ValueWidth(version: nat): nat {
    if version == 0 then 8 else 4
  }

  function PayloadContent(p: Payload, version: nat): seq<byte> {
    Sized(4, p.encKey) + Sized(ValueWidth(version), p.value)
  }

  function ParsePayloadContent(inp: seq<byte>, version: nat): Outcome<Payload> {
    var (encKey, rest) :- ReadSized(4, inp);
    var (value, _) :- ReadSized(ValueWidth(version), rest);
    Ok(Payload(encKey, value))
  }

  predicate ValidPayload(p: Payload, version: nat) {
    Fits(4, |p.encKey|) && Fits(ValueWidth(version), |p.value|)
  }

  lemma PayloadContentRoundTrip(p: Payload, version: nat)
    requires ValidPayload(p, version)
    ensures ParsePayloadContent(PayloadContent(p, version), version) == Ok(p)
  {
    var w := ValueWidth(version);
    ReadSizedOk(4, p.encKey, Sized(w, p.value));
    ReadSizedOk(w, p.value, []);
    assert Sized(w, p.value) + [] == Sized(w, p.value);
  }

  /** EncodePayload: a missing payload is the empty string. */
  function PayloadBytes(p: Option<Payload>, version: nat): seq<byte> {
    if p == None then [] else Header(version, TYPE_PAYLOAD, PayloadContent(p.value, version))
  }

  /** DecodePayload */
  function ParsePayload(inp: seq<byte>): Outcome<Option<Payload>> {
    if inp == [] then Ok(None) else
      var (version, content) :- CheckHeader(inp, PAYLOAD_VERSION, TYPE_PAYLOAD);
      var p :- ParsePayloadContent(content, version);
      Ok(Some(p))
  }

  /** Both supported versions round trip, and so does a missing payload. */
  lemma PayloadRoundTrip(p: Option<Payload>, version: nat)
    requires version <= PAYLOAD_VERSION && (p.Some? ==> ValidPayload(p.value, version))
    ensures ParsePayload(PayloadBytes(p, version)) == Ok(p)
  {
    if p.Some? {
      HeaderRoundTrip(version, PAYLOAD_VERSION, TYPE_PAYLOAD, PayloadContent(p.value, version));
      PayloadContentRoundTrip(p.value, version);
    }
  }

  /** A payload keeps its key: the encoded key it stores decodes to the key it was made from. */
  lemma PayloadKeyRoundTrip(k: Key, value: seq<byte>, version: nat)
    requires ValidKey(k) && ValidPayload(Payload(KeyContent(k), value), version)
    ensures var o := ParsePayloadContent(PayloadContent(Payload(KeyContent(k), value), version), version);
      o.Ok? && o.value.value == value && ParseKeyContent(o.value.encKey) == Ok(k)
  {
    PayloadContentRoundTrip(Payload(KeyContent(k), value), version);
    KeyContentRoundTrip(k, []);
    assert KeyContent(k) + [] == KeyContent(k);
  }

  // ------------------------------------------------------------- Trie updates

  datatype TrieUpdate = TrieUpdate(rootHash: seq<byte>, paths: seq<seq<byte>>, payloads: seq<Payload>)

  /** ToRootHash, ToPath and ToHash */
  function ToHash(bytes: seq<byte>): Outcome<seq<byte>> {
    if |bytes| != HASH_LEN then Error else Ok(bytes)
  }

  function PathBytes(paths: seq<seq<byte>>): seq<byte> {
    if paths == [] then [] else paths[0] + PathBytes(paths[1..])
  }

  function ParsePaths(n: nat, size: int, inp: seq<byte>): Outcome<(seq<seq<byte>>, seq<byte>)> {
    if n == 0 then Ok(([], inp)) else
      var (data, rest) :- ReadSlice(inp, size);
      var path :- ToHash(data);
      var (paths, rest') :- ParsePaths(n - 1, size, rest);
      Ok(([path] + paths, rest'))
  }

  ghost predicate AllHashes(hs: seq<seq<byte>>) {
    forall i :: 0 <= i < |hs| ==> |hs[i]| == HASH_LEN
  }

  lemma {:induction false} PathsRoundTrip(paths: seq<seq<byte>>, rest: seq<byte>)
    requires AllHashes(paths)
    ensures ParsePaths(|paths|, HASH_LEN, PathBytes(paths) + rest) == Ok((paths, rest))
  {
    if paths == [] {
      assert PathBytes(paths) + rest == rest;
    } else {
      var tail := PathBytes(paths[1..]) + rest;
      assert PathBytes(paths) + rest == paths[0] + tail;
      assert (paths[0] + tail)[..HASH_LEN] == paths[0] && (paths[0] + tail)[HASH_LEN..] == tail;
      PathsRoundTrip(paths[1..], rest);
      assert [paths[0]] + paths[1..] == paths;
    }
  }

  /** The part after the number of paths; an update without paths has none. */
  function UpdateTail(t: TrieUpdate, version: nat): seq<byte> {
    if t.paths == [] then [] else
      ToBytes(HASH_LEN, 2) +
        (PathBytes(t.paths) + EncodeItems(4, (p: Payload) => PayloadContent(p, version), t.payloads))
  }

  function UpdateContent(t: TrieUpdate, version: nat): seq<byte> {
    Sized(2, t.rootHash) + (ToBytes(|t.paths|, 4) + UpdateTail(t, version))
  }

  function ParseUpdateTail(rootHash: seq<byte>, n: nat, inp: seq<byte>, version: nat): Outcome<TrieUpdate> {
    var (size, rest) :- ReadUint(2, inp);
    var (paths, rest') :- ParsePaths(n, size, rest);
    var (payloads, _) :- DecodeItems(4, (b: seq<byte>) => ParsePayloadContent(b, version), n, rest');
    Ok(TrieUpdate(rootHash, paths, payloads))
  }

  function ParseUpdateContent(inp: seq<byte>, version: nat): Outcome<TrieUpdate> {
    var (hash, rest) :- ReadSized(2, inp);
    var rootHash :- ToHash(hash);
    var (n, rest') :- ReadUint(4, rest);
    ParseUpdateTail(rootHash, n, rest', version)
  }

  /** EncodeTrieUpdate: a missing update is the empty string. */
  function UpdateBytes(t: Option<TrieUpdate>): seq<byte> {
    if t == None then [] else Header(UPDATE_VERSION, TYPE_TRIE_UPDATE, UpdateContent(t.value, UPDATE_VERSION))
  }

  /** DecodeTrieUpdate */
  function ParseUpdate(inp: seq<byte>): Outcome<Option<TrieUpdate>> {
    if inp == [] then Ok(None) else
      var (version, content) :- CheckHeader(inp, UPDATE_VERSION, TYPE_TRIE_UPDATE);
      var t :- ParseUpdateContent(content, version);
      Ok(Some(t))
  }

  ghost predicate ValidUpdate(t: TrieUpdate) {
    && |t.rootHash| == HASH_LEN && AllHashes(t.paths)
    && |t.paths| == |t.payloads| < Limit(4)
    && forall i :: 0 <= i < |t.payloads| ==>
         ValidPayload(t.payloads[i], UPDATE_VERSION) && Fits(4, |PayloadContent(t.payloads[i], UPDATE_VERSION)|)
  }

  lemma UpdateTailRoundTrip(t: TrieUpdate)
    requires ValidUpdate(t) && t.paths != []
    ensures ParseUpdateTail(t.rootHash, |t.paths|, UpdateTail(t, UPDATE_VERSION), UPDATE_VERSION) == Ok(t)
  {
    var enc, dec := (p: Payload) => PayloadContent(p, UPDATE_VERSION),
      (b: seq<byte>) => ParsePayloadContent(b, UPDATE_VERSION);
    forall i | 0 <= i < |t.payloads|
      ensures Inverts(4, enc, dec, t.payloads[i])
    {
      PayloadContentRoundTrip(t.payloads[i], UPDATE_VERSION);
    }
    var items := EncodeItems(4, enc, t.payloads);
    assert Limit(2) == 65536;
    ReadUintOk(2, HASH_LEN, PathBytes(t.paths) + items);
    PathsRoundTrip(t.paths, items);
    ItemsRoundTrip(4, enc, dec, t.payloads, []);
    assert items + [] == items;
  }

  /**
   A trie update round trips exactly when it is missing or has a path; without one the decoder
   misses the path size.
   */
  lemma UpdateRoundTrip(t: Option<TrieUpdate>)
    requires t.Some? ==> ValidUpdate(t.value)
    ensures ParseUpdate(UpdateBytes(t)) == Ok(t) <==> t == None || t.value.paths != []
    ensures t.Some? && t.value.paths == [] ==> ParseUpdate(UpdateBytes(t)) == Error
  {
    if t.Some? {
      var tail := UpdateTail(t.value, UPDATE_VERSION);
      HeaderRoundTrip(UPDATE_VERSION, UPDATE_VERSION, TYPE_TRIE_UPDATE, UpdateContent(t.value, UPDATE_VERSION));
      assert Limit(2) == 65536;
      ReadSizedOk(2, t.value.rootHash, ToBytes(|t.value.paths|, 4) + tail);
      ReadUintOk(4, |t.value.paths|, tail);
      if t.value.paths != [] {
        UpdateTailRoundTrip(t.value);
      }
    }
  }

  /** The smallest update that is lost. */
  lemma EmptyUpdateIsLost(rootHash: seq<byte>)
    requires |rootHash| == HASH_LEN
    ensures ParseUpdate(UpdateBytes(Some(TrieUpdate(rootHash, [], [])))) == Error
  {
    UpdateRoundTrip(Some(TrieUpdate(rootHash, [], [])));
  }

  /** The loop that appends the paths. */
  method AppendPaths(buffer: seq<byte>, paths: seq<seq<byte>>) returns (b: seq<byte>)
    ensures b == buffer + PathBytes(paths)
  {
    b := buffer;
    for i := 0 to |paths|
      invariant b + PathBytes(paths[i..]) == buffer + PathBytes(paths)
    {
      assert paths[i..][1..] == paths[i + 1..];
      assert b + (paths[i] + PathBytes(paths[i + 1..])) == b + paths[i] + PathBytes(paths[i + 1..]);
      b := b + paths[i];
    }
    assert paths[|paths|..] == [];
  }

  /** EncodeTrieUpdate */
  method EncodeTrieUpdate(update: Option<TrieUpdate>) returns (b: seq<byte>)
    ensures b == UpdateBytes(update)
  {
    if update == None {
      return [];
    }
    var t := update.value;
    var content := Sized(2, t.rootHash);
    content := content + ToBytes(|t.paths|, 4);
    if |t.paths| > 0 {
      content := content + ToBytes(HASH_LEN, 2);
      content := AppendPaths(content, t.paths);
      content := AppendItems(content, 4, (p: Payload) => PayloadContent(p, UPDATE_VERSION), t.payloads);
      Nested(Sized(2, t.rootHash), ToBytes(|t.paths|, 4), ToBytes(HASH_LEN, 2), PathBytes(t.paths),
             EncodeItems(4, (p: Payload) => PayloadContent(p, UPDATE_VERSION), t.payloads));
    }
    assert content == UpdateContent(t, UPDATE_VERSION);
    b := WithHeader(UPDATE_VERSION, TYPE_TRIE_UPDATE, content);
  }

  lemma Nested(a: seq<byte>, b: seq<byte>, c: seq<byte>, d: seq<byte>, e: seq<byte>)
    ensures a + b + c + d + e == a + (b + (c + (d + e)))
  {
  }

  /** The loop that reads the paths. */
  method ReadPaths(n: nat, size: int, inp: seq<byte>) returns (o: Outcome<(seq<seq<byte>>, seq<byte>)>)
    ensures o == ParsePaths(n, size, inp)
  {
    var paths: seq<seq<byte>>, rest := [], inp;
    PrependNothing(ParsePaths(n, size, inp));
    for i := 0 to n
      invariant ParsePaths(n, size, inp) == Prepend(paths, ParsePaths(n - i, size, rest))
    {
      var slice := ReadSlice(rest, size);
      if !slice.Ok? {
        return slice.PropagateFailure();
      }
      var path := ToHash(slice.value.0);
      if !path.Ok? {
        return path.PropagateFailure();
      }
      PrependOne(paths, path.value, ParsePaths(n - i - 1, size, slice.value.1));
      paths, rest := paths + [path.value], slice.value.1;
    }
    assert paths + [] == paths;
    o := Ok((paths, rest));
  }

  /** DecodeTrieUpdate */
  method DecodeTrieUpdate(inp: seq<byte>) returns (o: Outcome<Option<TrieUpdate>>)
    ensures o == ParseUpdate(inp)
  {
    if inp == [] {
      return Ok(None);
    }
    var header :- CheckHeader(inp, UPDATE_VERSION, TYPE_TRIE_UPDATE);
    var version := header.0;
    var hash :- ReadSized(2, header.1);
    var rootHash :- ToHash(hash.0);
    var count :- ReadUint(4, hash.1);
    var size :- ReadUint(2, count.1);
    var paths := ReadPaths(count.0, size.0, size.1);
    if !paths.Ok? {
      return paths.PropagateFailure();
    }
    var payloads := ReadItems(4, (b: seq<byte>) => ParsePayloadContent(b, version), count.0, paths.value.1);
    if !payloads.Ok? {
      return payloads.PropagateFailure();
    }
    o := Ok(Some(TrieUpdate(rootHash, paths.value.0, payloads.value.0)));
  }

  // -------------------------------------------------------------------- Proofs

  datatype Proof = Proof(
    inclusion: bool, steps: nat, flags: seq<byte>, path: seq<byte>, payload: Payload, interims: seq<seq<byte>>)

  /** The first bit of the first byte is the inclusion flag. */
  function InclusionByte(inclusion: bool): byte {
    if inclusion then 128 else 0
  }

  function Interim(h: seq<byte>): seq<byte> {
    h
  }

  function InterimBytes(p: Proof): seq<byte> {
    ToBytes(|p.interims|, 1) + EncodeItems(2, Interim, p.interims)
  }

  function ProofContent(p: Proof, version: nat): seq<byte> {
    var payload := PayloadContent(p.payload, version);
    [InclusionByte(p.inclusion)] +
      (ToBytes(p.steps, 1) + (Sized(1, p.flags) + (Sized(2, p.path) + (Sized(8, payload) + InterimBytes(p)))))
  }

  function ParseInterims(inp: seq<byte>): Outcome<seq<seq<byte>>> {
    var (n, rest) :- ReadUint(1, inp);
    var (interims, _) :- DecodeItems(2, ToHash, n, rest);
    Ok(interims)
  }

  function ParseProofContent(inp: seq<byte>, version: nat): Outcome<Proof> {
    var (first, rest) :- ReadSlice(inp, 1);
    var (steps, rest) :- ReadUint(1, rest);
    var (flags, rest) :- ReadSized(1, rest);
    var (pathBytes, rest) :- ReadSized(2, rest);
    var path :- ToHash(pathBytes);
    var (encPayload, rest) :- ReadSized(8, rest);
    var payload :- ParsePayloadContent(encPayload, version);
    var interims :- ParseInterims(rest);
    Ok(Proof(first[0] >= 128, steps, flags, path, payload, interims))
  }

  ghost predicate ValidProof(p: Proof, version: nat) {
    && p.steps < Limit(1) && |p.flags| < Limit(1) && |p.path| == HASH_LEN
    && ValidPayload(p.payload, version) && Fits(8, |PayloadContent(p.payload, version)|)
    && |p.interims| < Limit(1) && AllHashes(p.interims)
  }

  lemma InterimsRoundTrip(p: Proof, version: nat)
    requires ValidProof(p, version)
    ensures ParseInterims(InterimBytes(p)) == Ok(p.interims)
  {
    assert Limit(2) == 65536;
    ReadUintOk(1, |p.interims|, EncodeItems(2, Interim, p.interims));
    forall i | 0 <= i < |p.interims|
      ensures Inverts(2, Interim, ToHash, p.interims[i])
    {
    }
    ItemsRoundTrip(2, Interim, ToHash, p.interims, []);
    assert EncodeItems(2, Interim, p.interims) + [] == EncodeItems(2, Interim, p.interims);
  }

  /** The content of a proof decodes to the proof. */
  lemma ProofContentRoundTrip(p: Proof, version: nat)
    requires ValidProof(p, version)
    ensures ParseProofContent(ProofContent(p, version), version) == Ok(p)
  {
    assert Limit(2) == 65536;
    var f := InterimBytes(p);
    var e := Sized(8, PayloadContent(p.payload, version)) + f;
    var d := Sized(2, p.path) + e;
    var c := Sized(1, p.flags) + d;
    var b := ToBytes(p.steps, 1) + c;
    var inp := [InclusionByte(p.inclusion)] + b;
    assert inp[..1] == [InclusionByte(p.inclusion)] && inp[1..] == b;
    ReadUintOk(1, p.steps, c);
    ReadSizedOk(1, p.flags, d);
    ReadSizedOk(2, p.path, e);
    ReadSizedOk(8, PayloadContent(p.payload, version), f);
    PayloadContentRoundTrip(p.payload, version);
    InterimsRoundTrip(p, version);
  }

  function ProofBytes(p: Proof): seq<byte> {
    Header(PROOF_VERSION, TYPE_PROOF, ProofContent(p, PROOF_VERSION))
  }

  function ParseProof(inp: seq<byte>): Outcome<Proof> {
    var (version, content) :- CheckHeader(inp, PROOF_VERSION, TYPE_PROOF);
    ParseProofContent(content, version)
  }

  lemma ProofRoundTrip(p: Proof)
    requires ValidProof(p, PROOF_VERSION)
    ensures ParseProof(ProofBytes(p)) == Ok(p)
  {
    HeaderRoundTrip(PROOF_VERSION, PROOF_VERSION, TYPE_PROOF, ProofContent(p, PROOF_VERSION));
    ProofContentRoundTrip(p, PROOF_VERSION);
  }

  /** encodeTrieProof */
  method EncodeProofContent(p: Proof, version: nat) returns (b: seq<byte>)
    ensures b == ProofContent(p, version)
  {
    b := [InclusionByte(p.inclusion)];
    b := b + ToBytes(p.steps, 1);
    b := b + Sized(1, p.flags);
    b := b + Sized(2, p.path);
    b := b + Sized(8, PayloadContent(p.payload, version));
    ghost var front := b;
    b := b + ToBytes(|p.interims|, 1);
    b := AppendItems(b, 2, Interim, p.interims);
    assert b == front + InterimBytes(p);
    ghost var flag, steps, payload := [InclusionByte(p.inclusion)], ToBytes(p.steps, 1),
      Sized(8, PayloadContent(p.payload, version));
    Nested(flag, steps, Sized(1, p.flags), Sized(2, p.path), payload);
    NestedLast(flag, steps, Sized(1, p.flags), Sized(2, p.path), payload, InterimBytes(p));
  }

  lemma NestedLast(a: seq<byte>, b: seq<byte>, c: seq<byte>, d: seq<byte>, e: seq<byte>, f: seq<byte>)
    ensures a + (b + (c + (d + e))) + f == a + (b + (c + (d + (e + f))))
  {
    assert (d + e) + f == d + (e + f);
    assert (c + (d + e)) + f == c + (d + (e + f));
    assert (b + (c + (d + e))) + f == b + (c + (d + (e + f)));
  }

  /** EncodeTrieProof */
  method EncodeTrieProof(p: Proof) returns (b: seq<byte>)
    ensures b == ProofBytes(p)
  {
    var content := EncodeProofContent(p, PROOF_VERSION);
    b := WithHeader(PROOF_VERSION, TYPE_PROOF, content);
  }

  /** decodeTrieProof */
  method DecodeProofContent(inp: seq<byte>, version: nat) returns (o: Outcome<Proof>)
    ensures o == ParseProofContent(inp, version)
  {
    var first :- ReadSlice(inp, 1);
    var steps :- ReadUint(1, first.1);
    var flags :- ReadSized(1, steps.1);
    var pathBytes :- ReadSized(2, flags.1);
    var path :- ToHash(pathBytes.0);
    var encPayload :- ReadSized(8, pathBytes.1);
    var payload :- ParsePayloadContent(encPayload.0, version);
    var count :- ReadUint(1, encPayload.1);
    var interims := ReadItems(2, ToHash, count.0, count.1);
    if !interims.Ok? {
      return interims.PropagateFailure();
    }
    o := Ok(Proof(first.0[0] >= 128, steps.0, flags.0, path, payload, interims.value.0));
  }

  /** DecodeTrieProof */
  method DecodeTrieProof(inp: seq<byte>) returns (o: Outcome<Proof>)
    ensures o == ParseProof(inp)
  {
    var header :- CheckHeader(inp, PROOF_VERSION, TYPE_PROOF);
    o := DecodeProofContent(header.1, header.0);
  }

  // -------------------------------------------------------------- Batch proofs

  function BatchContent(proofs: seq<Proof>, version: nat): seq<byte> {
    ToBytes(|proofs|, 4) + EncodeItems(8, (p: Proof) => ProofContent(p, version), proofs)
  }

  function ParseBatchContent(inp: seq<byte>, version: nat): Outcome<seq<Proof>> {
    var (n, rest) :- ReadUint(4, inp);
    var (proofs, _) :- DecodeItems(8, (b: seq<byte>) => ParseProofContent(b, version), n, rest);
    Ok(proofs)
  }

  function BatchBytes(proofs: seq<Proof>): seq<byte> {
    Header(BATCH_PROOF_VERSION, TYPE_BATCH_PROOF, BatchContent(proofs, BATCH_PROOF_VERSION))
  }

  function ParseBatch(inp: seq<byte>): Outcome<seq<Proof>> {
    var (version, content) :- CheckHeader(inp, BATCH_PROOF_VERSION, TYPE_BATCH_PROOF);
    ParseBatchContent(content, version)
  }

  ghost predicate ValidBatch(proofs: seq<Proof>) {
    && |proofs| < Limit(4)
    && forall i :: 0 <= i < |proofs| ==>
         ValidProof(proofs[i], BATCH_PROOF_VERSION) && Fits(8, |ProofContent(proofs[i], BATCH_PROOF_VERSION)|)
  }

  /** A batch proof, empty or not, decodes to itself. */
  lemma BatchProofRoundTrip(proofs: seq<Proof>)
    requires ValidBatch(proofs)
    ensures ParseBatch(BatchBytes(proofs)) == Ok(proofs)
  {
    var enc, dec := (p: Proof) => ProofContent(p, BATCH_PROOF_VERSION),
      (b: seq<byte>) => ParseProofContent(b, BATCH_PROOF_VERSION);
    HeaderRoundTrip(BATCH_PROOF_VERSION, BATCH_PROOF_VERSION, TYPE_BATCH_PROOF,
      BatchContent(proofs, BATCH_PROOF_VERSION));
    forall i | 0 <= i < |proofs|
      ensures Inverts(8, enc, dec, proofs[i])
    {
      ProofContentRoundTrip(proofs[i], BATCH_PROOF_VERSION);
    }
    var items := EncodeItems(8, enc, proofs);
    ReadUintOk(4, |proofs|, items);
    ItemsRoundTrip(8, enc, dec, proofs, []);
    assert items + [] == items;
  }

  /** EncodeTrieBatchProof */
  method EncodeTrieBatchProof(proofs: seq<Proof>) returns (b: seq<byte>)
    ensures b == BatchBytes(proofs)
  {
    var content := AppendItems(ToBytes(|proofs|, 4), 8, (p: Proof) => ProofContent(p, BATCH_PROOF_VERSION), proofs);
    b := WithHeader(BATCH_PROOF_VERSION, TYPE_BATCH_PROOF, content);
  }

  /** DecodeTrieBatchProof */
  method DecodeTrieBatchProof(inp: seq<byte>) returns (o: Outcome<seq<Proof>>)
    ensures o == ParseBatch(inp)
  {
    var header :- CheckHeader(inp, BATCH_PROOF_VERSION, TYPE_BATCH_PROOF);
    var version := header.0;
    var count :- ReadUint(4, header.1);
    var proofs := ReadItems(8, (b: seq<byte>) => ParseProofContent(b, version), count.0, count.1);
    o := if proofs.Ok? then Ok(proofs.value.0) else proofs.PropagateFailure();
  }
}
