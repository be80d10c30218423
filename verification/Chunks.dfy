// Files as chunk lists: the exact-length rules (crates/duckfs/core/src/objects.rs:291-365), the
// cut into chunks (crates/duckfs/core/src/fs.rs:1688-1714) and the range read over them
// (crates/duckfs/core/src/queries.rs:897-939).
module Chunks {
  import opened Wrappers
  import opened Texts
  import opened Kinds

  const CHUNK_SIZE := 0x10_0000
  const U64_END := 0x1_0000_0000_0000_0000

  type U64 = n: int | 0 <= n < U64_END

  // ---- the length rules -----------------------------------------------------------------------

  predicate VerifyChunkLenAt(size: U64, count: nat, index: nat, got: U64) {
    if index >= count then false
    else if index + 1 == count then
      var prefix := (count - 1) * CHUNK_SIZE;
      prefix < U64_END && size >= prefix && 0 < size - prefix <= CHUNK_SIZE && got == size - prefix
    else got == CHUNK_SIZE
  }

  predicate VerifyFileShape(size: U64, count: nat) {
    if size == 0 then count == 0
    else
      && count != 0
      && (count - 1) * CHUNK_SIZE < U64_END && count * CHUNK_SIZE < U64_END
      && (count - 1) * CHUNK_SIZE < size <= count * CHUNK_SIZE
  }

  function ChunksNeeded(size: nat): nat {
    (size + CHUNK_SIZE - 1) / CHUNK_SIZE
  }

  // How long the `index`th chunk of a file of this size has to be.
  function LengthAt(size: nat, index: nat): nat
    requires index * CHUNK_SIZE < size
  {
    if size - index * CHUNK_SIZE < CHUNK_SIZE then size - index * CHUNK_SIZE else CHUNK_SIZE
  }

  // The shape rule accepts exactly the one chunk count a size needs, except that a size in the
  // last chunk below 2^64 is refused with every count.
  lemma ShapeIsExact(size: U64, count: nat)
    ensures VerifyFileShape(size, count) <==> count == ChunksNeeded(size) && size <= U64_END - CHUNK_SIZE
  {
  }

  // So of the greatest sizes there are, no file can be made at all.
  lemma GreatestSizeHasNoShape(count: nat)
    ensures !VerifyFileShape(U64_END - 1, count)
  {
    ShapeIsExact(U64_END - 1, count);
  }

  // Under that shape the length rule accepts exactly one length per index.
  lemma LengthIsExact(size: U64, count: nat, index: nat, got: U64)
    requires VerifyFileShape(size, count) && index < count
    ensures VerifyChunkLenAt(size, count, index, got) <==> got == LengthAt(size, index)
  {
  }

  // ---- cutting --------------------------------------------------------------------------------

  // `bytes.chunks(CHUNK_SIZE)`.
  function Cut(bytes: Text): seq<Text> {
    if |bytes| == 0 then []
    else if |bytes| <= CHUNK_SIZE then [bytes]
    else [bytes[..CHUNK_SIZE]] + Cut(bytes[CHUNK_SIZE..])
  }

  lemma {:induction false} CutIs(bytes: Text)
    ensures |Cut(bytes)| == ChunksNeeded(|bytes|)
    ensures forall i: nat :: i < |Cut(bytes)| ==>
              i * CHUNK_SIZE < |bytes|
              && Cut(bytes)[i] == bytes[i * CHUNK_SIZE..i * CHUNK_SIZE + LengthAt(|bytes|, i)]
  {
    if |bytes| > CHUNK_SIZE {
      var rest := bytes[CHUNK_SIZE..];
      CutIs(rest);
      assert ChunksNeeded(|bytes|) == 1 + ChunksNeeded(|rest|);
      forall i: nat | i < |Cut(bytes)|
        ensures i * CHUNK_SIZE < |bytes|
        ensures Cut(bytes)[i] == bytes[i * CHUNK_SIZE..i * CHUNK_SIZE + LengthAt(|bytes|, i)]
      {
        if i > 0 { CutTail(bytes, i); }
      }
    }
  }

  lemma CutTail(bytes: Text, i: nat)
    requires |bytes| > CHUNK_SIZE && 0 < i <= |Cut(bytes[CHUNK_SIZE..])|
    requires var rest := bytes[CHUNK_SIZE..];
             (i - 1) * CHUNK_SIZE < |rest|
             && Cut(rest)[i - 1] == rest[(i - 1) * CHUNK_SIZE..(i - 1) * CHUNK_SIZE + LengthAt(|rest|, i - 1)]
    ensures i * CHUNK_SIZE < |bytes|
    ensures Cut(bytes)[i] == bytes[i * CHUNK_SIZE..i * CHUNK_SIZE + LengthAt(|bytes|, i)]
  {
    hide Cut;
    var rest, at := bytes[CHUNK_SIZE..], (i - 1) * CHUNK_SIZE;
    assert i * CHUNK_SIZE == CHUNK_SIZE + at;
    assert LengthAt(|bytes|, i) == LengthAt(|rest|, i - 1);
    CutNext(bytes, i);
    SliceOfRest(bytes, CHUNK_SIZE, at, LengthAt(|rest|, i - 1));
  }

  lemma CutNext(bytes: Text, i: nat)
    requires |bytes| > CHUNK_SIZE && 0 < i <= |Cut(bytes[CHUNK_SIZE..])|
    ensures |Cut(bytes)| == 1 + |Cut(bytes[CHUNK_SIZE..])| && Cut(bytes)[i] == Cut(bytes[CHUNK_SIZE..])[i - 1]
  {
  }

  lemma SliceOfRest(bytes: Text, from: nat, at: nat, len: nat)
    requires from + at + len <= |bytes|
    ensures bytes[from..][at..at + len] == bytes[from + at..from + at + len]
  {
  }

  // What a commit writes passes both rules at every index.
  lemma CutPassesTheRules(bytes: Text)
    requires |bytes| <= U64_END - CHUNK_SIZE
    ensures VerifyFileShape(|bytes|, |Cut(bytes)|)
    ensures forall i :: 0 <= i < |Cut(bytes)| ==>
              |Cut(bytes)[i]| <= CHUNK_SIZE && VerifyChunkLenAt(|bytes|, |Cut(bytes)|, i, |Cut(bytes)[i]|)
  {
    CutIs(bytes);
    ShapeIsExact(|bytes|, |Cut(bytes)|);
    forall i | 0 <= i < |Cut(bytes)|
      ensures |Cut(bytes)[i]| <= CHUNK_SIZE && VerifyChunkLenAt(|bytes|, |Cut(bytes)|, i, |Cut(bytes)[i]|)
    {
      LengthIsExact(|bytes|, |Cut(bytes)|, i, LengthAt(|bytes|, i));
    }
  }

  // ---- reading --------------------------------------------------------------------------------

  // A file object, as far as its bytes go.
  datatype Sized = Sized(size: U64, chunks: seq<Id>)

  datatype Stored = Chunk(body: Text) | Other

  datatype ReadError = FewerChunksThanSize | ChunkMissing | NotAChunk | LengthInconsistent

  // The chunk at this index can be read: named, present, a chunk, and exactly as long as its
  // place demands.
  predicate Intact(file: Sized, store: map<Id, Stored>, index: nat) {
    && index < |file.chunks|
    && file.chunks[index] in store
    && store[file.chunks[index]].Chunk?
    && |store[file.chunks[index]].body| < U64_END
    && VerifyChunkLenAt(file.size, |file.chunks|, index, |store[file.chunks[index]].body|)
  }

  // One past the last byte a read delivers: the request clipped to the file.
  function ReadEnd(size: U64, offset: U64, len: U64): (r: nat)
    ensures r == if offset + len < size then offset + len else size
  {
    var end := if offset + len < U64_END then offset + len else U64_END - 1;
    if end < size then end else size
  }

  // This byte is at position `p` of the file: at its place in the intact chunk that holds it.
  predicate Holds(file: Sized, store: map<Id, Stored>, p: nat, b: Byte) {
    Intact(file, store, p / CHUNK_SIZE)
    && p % CHUNK_SIZE < |store[file.chunks[p / CHUNK_SIZE]].body|
    && b == store[file.chunks[p / CHUNK_SIZE]].body[p % CHUNK_SIZE]
  }

  // A read delivers exactly the clipped range, byte by byte, or nothing: it fails exactly when
  // some chunk the range touches is not intact.
  method ReadRange(file: Sized, store: map<Id, Stored>, offset: U64, len: U64) returns (r: Result<Text, ReadError>)
    requires forall id :: id in store && store[id].Chunk? ==> |store[id].body| < U64_END
    ensures offset >= file.size || len == 0 ==> r == Ok([])
    ensures offset < file.size && len > 0 ==>
      var end := ReadEnd(file.size, offset, len);
      && (r.Ok? <==> forall i :: offset / CHUNK_SIZE <= i <= (end - 1) / CHUNK_SIZE ==> Intact(file, store, i))
      && (r.Ok? ==> |r.value| == end - offset
                    && forall k :: 0 <= k < |r.value| ==> Holds(file, store, offset + k, r.value[k]))
  {
    if offset >= file.size || len == 0 {
      return Ok([]);
    }
    var end := ReadEnd(file.size, offset, len);
    var first := offset / CHUNK_SIZE;
    var last := (end - 1) / CHUNK_SIZE;
    var out: Text := [];
    var index := first;
    DeliveredEnds(offset, end);
    assert offset < end <= file.size && first <= last;
    hide Intact, Holds, Delivered, ReadEnd, VerifyChunkLenAt;
    while index <= last
      invariant first <= index <= last + 1
      invariant forall i :: first <= i < index ==> Intact(file, store, i)
      invariant |out| == Delivered(offset, end, index)
      invariant forall k :: 0 <= k < |out| ==> Holds(file, store, offset + k, out[k])
    {
      var fetched := Fetch(file, store, index);
      if fetched.Err? {
        return Err(fetched.error);
      }
      var body := fetched.value;
      var chunkStart := index * CHUNK_SIZE;
      var chunkEnd := chunkStart + |body|;
      var lo := if offset < chunkStart then chunkStart else offset;
      var hi := if end < chunkEnd then end else chunkEnd;
      Clip(file, store, offset, end, index);
      if lo < hi {
        PieceHolds(file, store, index, offset, out, lo, hi);
        out := out + body[lo - chunkStart..hi - chunkStart];
      }
      index := index + 1;
    }
    return Ok(out);
  }

  // One chunk, checked before a byte of it is used.
  method Fetch(file: Sized, store: map<Id, Stored>, index: nat) returns (r: Result<Text, ReadError>)
    requires forall id :: id in store && store[id].Chunk? ==> |store[id].body| < U64_END
    ensures r.Ok? <==> Intact(file, store, index)
    ensures r.Ok? ==> r.value == store[file.chunks[index]].body
  {
    if index >= |file.chunks| {
      return Err(FewerChunksThanSize);
    }
    var id := file.chunks[index];
    if id !in store {
      return Err(ChunkMissing);
    }
    if store[id].Other? {
      return Err(NotAChunk);
    }
    var body := store[id].body;
    if !VerifyChunkLenAt(file.size, |file.chunks|, index, |body|) {
      return Err(LengthInconsistent);
    }
    return Ok(body);
  }

  // How many bytes the chunks below `index` contribute.
  function Delivered(offset: nat, end: nat, index: nat): int {
    if index <= offset / CHUNK_SIZE then 0
    else if index * CHUNK_SIZE < end then index * CHUNK_SIZE - offset
    else end - offset
  }

  lemma DeliveredEnds(offset: nat, end: nat)
    requires offset < end
    ensures Delivered(offset, end, offset / CHUNK_SIZE) == 0
    ensures Delivered(offset, end, (end - 1) / CHUNK_SIZE + 1) == end - offset
  {
    InChunk(end - 1, (end - 1) / CHUNK_SIZE);
  }

  // The part of the request that falls in an intact chunk continues where the last one stopped.
  lemma Clip(file: Sized, store: map<Id, Stored>, offset: U64, end: nat, index: nat)
    requires offset < end <= file.size && offset / CHUNK_SIZE <= index <= (end - 1) / CHUNK_SIZE
    requires Intact(file, store, index)
    ensures var body := store[file.chunks[index]].body;
            var start := index * CHUNK_SIZE;
            var lo := if offset < start then start else offset;
            var hi := if end < start + |body| then end else start + |body|;
            && start <= lo < hi <= start + |body| && hi <= start + CHUNK_SIZE
            && Delivered(offset, end, index) == lo - offset && Delivered(offset, end, index + 1) == hi - offset
  {
    var body := store[file.chunks[index]].body;
    InChunk(end - 1, (end - 1) / CHUNK_SIZE);
    InChunk(offset, offset / CHUNK_SIZE);
    assert |body| <= CHUNK_SIZE;
    assert if index < (end - 1) / CHUNK_SIZE then |body| == CHUNK_SIZE else end <= index * CHUNK_SIZE + |body|;
  }

  lemma HoldsIn(file: Sized, store: map<Id, Stored>, p: nat, index: nat)
    requires Intact(file, store, index)
    requires index * CHUNK_SIZE <= p < index * CHUNK_SIZE + |store[file.chunks[index]].body|
        && p < (index + 1) * CHUNK_SIZE
    ensures Holds(file, store, p, store[file.chunks[index]].body[p - index * CHUNK_SIZE])
  {
    InChunk(p, index);
  }

  // Bytes read up to here, and the next piece of an intact chunk behind them.
  lemma PieceHolds(file: Sized, store: map<Id, Stored>, index: nat, offset: nat, out: Text, lo: nat, hi: nat)
    requires Intact(file, store, index)
    requires var body, start := store[file.chunks[index]].body, index * CHUNK_SIZE;
      start <= lo < hi <= start + |body| && hi <= start + CHUNK_SIZE
    requires offset <= lo && |out| == lo - offset
    requires forall k :: 0 <= k < |out| ==> Holds(file, store, offset + k, out[k])
    ensures var more := out + store[file.chunks[index]].body[lo - index * CHUNK_SIZE..hi - index * CHUNK_SIZE];
      |more| == hi - offset && forall k :: 0 <= k < |more| ==> Holds(file, store, offset + k, more[k])
  {
    hide Holds, VerifyChunkLenAt;
    var more := out + store[file.chunks[index]].body[lo - index * CHUNK_SIZE..hi - index * CHUNK_SIZE];
    forall k | |out| <= k < |more|
      ensures Holds(file, store, offset + k, more[k])
    {
      HoldsIn(file, store, offset + k, index);
    }
  }

  // The one chunk index a position falls in.
  lemma InChunk(p: nat, index: nat)
    ensures index * CHUNK_SIZE <= p < (index + 1) * CHUNK_SIZE <==> p / CHUNK_SIZE == index
    ensures p / CHUNK_SIZE == index ==> p % CHUNK_SIZE == p - index * CHUNK_SIZE
  {
  }

  // Reading any range of what was written returns exactly that slice.
  lemma WrittenReadsBack(bytes: Text, chunks: seq<Id>, store: map<Id, Stored>, p: nat)
    requires |bytes| <= U64_END - CHUNK_SIZE && |chunks| == |Cut(bytes)|
    requires forall i :: 0 <= i < |chunks| ==> chunks[i] in store && store[chunks[i]] == Chunk(Cut(bytes)[i])
    requires p < |bytes|
    ensures var file := Sized(|bytes|, chunks);
            Intact(file, store, p / CHUNK_SIZE) && forall b :: Holds(file, store, p, b) <==> b == bytes[p]
  {
    CutPassesTheRules(bytes);
    CutHolds(bytes, p);
    hide Cut, VerifyChunkLenAt;
  }

  lemma CutHolds(bytes: Text, p: nat)
    requires p < |bytes|
    ensures var i := p / CHUNK_SIZE;
      i < |Cut(bytes)| && p % CHUNK_SIZE < |Cut(bytes)[i]| && Cut(bytes)[i][p % CHUNK_SIZE] == bytes[p]
  {
    hide Cut;
    CutIs(bytes);
    var i := p / CHUNK_SIZE;
    InChunk(p, i);
    assert i < |Cut(bytes)|;
    assert Cut(bytes)[i] == bytes[i * CHUNK_SIZE..i * CHUNK_SIZE + LengthAt(|bytes|, i)];
    assert p - i * CHUNK_SIZE < LengthAt(|bytes|, i);
  }

  method WriteThenRead(bytes: Text, chunks: seq<Id>, store: map<Id, Stored>, offset: U64, len: U64)
    returns (r: Result<Text, ReadError>)
    requires |bytes| <= U64_END - CHUNK_SIZE && |chunks| == |Cut(bytes)|
    requires forall i :: 0 <= i < |chunks| ==> chunks[i] in store && store[chunks[i]] == Chunk(Cut(bytes)[i])
    requires forall id :: id in store && store[id].Chunk? ==> |store[id].body| < U64_END
    ensures r == Ok(if offset >= |bytes| then []
                    else bytes[offset..if offset + len < |bytes| then offset + len else |bytes|])
  {
    var file := Sized(|bytes|, chunks);
    r := ReadRange(file, store, offset, len);
    if offset < |bytes| && len == 0 {
      assert bytes[offset..offset] == [];
    }
    if offset < |bytes| && len > 0 {
      var end := ReadEnd(file.size, offset, len);
      forall i | offset / CHUNK_SIZE <= i <= (end - 1) / CHUNK_SIZE
        ensures Intact(file, store, i)
      {
        var p := if i * CHUNK_SIZE < offset then offset else i * CHUNK_SIZE;
        WrittenReadsBack(bytes, chunks, store, p);
        assert p / CHUNK_SIZE == i;
      }
      forall k | 0 <= k < |r.value|
        ensures r.value[k] == bytes[offset + k]
      {
        WrittenReadsBack(bytes, chunks, store, offset + k);
      }
      assert r.value == bytes[offset..end];
    }
  }
}
