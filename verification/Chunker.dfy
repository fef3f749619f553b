/**
 * The streaming chunker (`SnapshotManifest::{build, build_streaming}`, `emit_stream_chunk` and
 * `build_chunk` in `crates/aequora-bootstrap/src/lib.rs`).
 */
module Chunker {
  import opened Base
  import opened Snapshot

  datatype Config = Config(
    targetRecords: usize, targetBytes: usize, maxChunkBytes: usize,
    maxChunks: usize, maxRecords: usize, maxTotalBytes: usize)
  {
    predicate Valid() {
      && targetRecords != 0 && targetBytes != 0 && maxChunkBytes != 0 && maxChunks != 0
      && maxRecords != 0 && maxTotalBytes != 0 && targetBytes <= maxChunkBytes
    }
  }

  /** The arguments of a build; `sink` sees all chunks handed to it so far and may refuse. */
  datatype Build = Build(
    env: Env, snapshotId: nat, boundary: Boundary, schemaVersion: u64, config: Config, sink: seq<Chunk> -> bool)

  function LittleEndian32(x: u32): Bytes {
    [x % 256, (x / 256) % 256, (x / 65_536) % 256, (x / 16_777_216) % 256]
  }

  function BuildChunk(env: Env, snapshotId: nat, ordinal: nat, records: seq<Record>): Result<Chunk, BootstrapError> {
    match env.encode(records)
    case None => Err(Serialization)
    case Some(bytes) =>
      if ordinal > U32_MAX then Err(Overflow)
      else if records == [] then Err(ChunkRecordCount)
      else if |bytes| > U64_MAX || |records| > U64_MAX then Err(Overflow)
      else
        var digest := env.hash(bytes);
        var chunkId := env.hash(env.idBytes(snapshotId) + LittleEndian32(ordinal) + digest);
        var range := EntityRange(records[0].entity, records[|records| - 1].entity);
        Ok(Chunk(ChunkDescriptor(chunkId, ordinal, range, |records|, |bytes|, |bytes|, digest, Uncompressed, Service),
                 bytes))
  }

  function Emit(b: Build, chunks: seq<Chunk>, total: nat, records: seq<Record>)
    : Result<(seq<Chunk>, nat), BootstrapError>
  {
    if |chunks| == b.config.maxChunks then Err(ChunkLimit)
    else match BuildChunk(b.env, b.snapshotId, |chunks|, records)
      case Err(e) => Err(e)
      case Ok(chunk) =>
        var next := total + chunk.descriptor.uncompressedBytes;
        if next > U64_MAX then Err(Overflow)
        else if next > b.config.maxTotalBytes then Err(TotalByteLimit)
        else if !b.sink(chunks + [chunk]) then Err(SinkFailure)
        else Ok((chunks + [chunk], next))
  }

  /** The local variables of the streaming loop. */
  datatype Progress = Progress(
    chunks: seq<Chunk>, current: seq<Record>, previous: Option<EntityRef>, count: nat, total: nat)

  const START := Progress([], [], None, 0, 0)

  function Feed(b: Build, p: Progress, record: Record): Result<Progress, BootstrapError> {
    var current := p.current + [record];
    if p.previous.Some? && !Lt(p.previous.value, record.entity) then
      Err(if p.previous == Some(record.entity) then DuplicateEntity else EntityOrder)
    else if p.count + 1 > USIZE_MAX then Err(Overflow)
    else if p.count + 1 > b.config.maxRecords then Err(RecordLimit)
    else match b.env.encode(current)
      case None => Err(Serialization)
      case Some(bytes) =>
        if |bytes| > b.config.maxChunkBytes then
          if |current| == 1 then Err(ChunkByteLimit)
          else match Emit(b, p.chunks, p.total, p.current)
            case Err(e) => Err(e)
            case Ok((chunks, total)) =>
              (match b.env.encode([record])
               case None => Err(Serialization)
               case Some(single) =>
                 if |single| > b.config.maxChunkBytes then Err(ChunkByteLimit)
                 else Ok(Progress(chunks, [record], Some(record.entity), p.count + 1, total)))
        else if |current| >= b.config.targetRecords || |bytes| >= b.config.targetBytes then
          match Emit(b, p.chunks, p.total, current)
          case Err(e) => Err(e)
          case Ok((chunks, total)) => Ok(Progress(chunks, [], Some(record.entity), p.count + 1, total))
        else Ok(Progress(p.chunks, current, Some(record.entity), p.count + 1, p.total))
  }

  function FeedAll(b: Build, records: seq<Record>): Result<Progress, BootstrapError> {
    if records == [] then Ok(START)
    else match FeedAll(b, records[..|records| - 1])
      case Err(e) => Err(e)
      case Ok(p) => Feed(b, p, records[|records| - 1])
  }

  datatype Built = Built(manifest: Manifest, chunks: seq<Chunk>)

  function Descriptors(chunks: seq<Chunk>): seq<ChunkDescriptor> {
    seq(|chunks|, i requires 0 <= i < |chunks| => chunks[i].descriptor)
  }

  function Finish(b: Build, p: Progress): Result<Built, BootstrapError> {
    var flushed: Result<(seq<Chunk>, nat), BootstrapError> :=
      if p.current == [] then Ok((p.chunks, p.total)) else Emit(b, p.chunks, p.total, p.current);
    match flushed
    case Err(e) => Err(e)
    case Ok((chunks, total)) =>
      if p.count > U64_MAX || total > U64_MAX then Err(Overflow)
      else
        var m := Manifest(MANIFEST_FORMAT_VERSION, b.snapshotId, b.boundary, b.schemaVersion, p.count, total, total,
                          [], Descriptors(chunks));
        match CalculateRoot(b.env, m)
        case None => Err(Serialization)
        case Some(root) => Ok(Built(m.(rootDigest := root), chunks))
  }

  function BuildStreaming(b: Build, records: seq<Record>): Result<Built, BootstrapError> {
    if !b.config.Valid() then Err(InvalidLimits)
    else match FeedAll(b, records)
      case Err(e) => Err(e)
      case Ok(p) => Finish(b, p)
  }

  /** One pass of the loop body: push, then split off an overflow or close a full chunk. */
  method FeedRecord(b: Build, p: Progress, record: Record) returns (r: Result<Progress, BootstrapError>)
    ensures r == Feed(b, p, record)
  {
    if p.previous.Some? && !Lt(p.previous.value, record.entity) {
      return Err(if p.previous == Some(record.entity) then DuplicateEntity else EntityOrder);
    }
    if p.count + 1 > USIZE_MAX {
      return Err(Overflow);
    }
    if p.count + 1 > b.config.maxRecords {
      return Err(RecordLimit);
    }
    var chunks, total := p.chunks, p.total;
    var current := p.current + [record];
    var encoded := b.env.encode(current);
    if encoded.None? {
      return Err(Serialization);
    }
    var reachedTarget := |current| >= b.config.targetRecords || |encoded.value| >= b.config.targetBytes;
    if |encoded.value| > b.config.maxChunkBytes {
      if |current| == 1 {
        return Err(ChunkByteLimit);
      }
      current := current[..|current| - 1];
      assert current == p.current;
      var emitted := Emit(b, chunks, total, current);
      if emitted.Err? {
        return Err(emitted.error);
      }
      chunks, total := emitted.value.0, emitted.value.1;
      current := [record];
      var single := b.env.encode(current);
      if single.None? {
        return Err(Serialization);
      }
      if |single.value| > b.config.maxChunkBytes {
        return Err(ChunkByteLimit);
      }
    } else if reachedTarget {
      var emitted := Emit(b, chunks, total, current);
      if emitted.Err? {
        return Err(emitted.error);
      }
      chunks, total := emitted.value.0, emitted.value.1;
      current := [];
    }
    return Ok(Progress(chunks, current, Some(record.entity), p.count + 1, total));
  }

  /** The streaming loop itself: one record at a time, holding only the current chunk. */
  method BuildStreamingLoop(b: Build, records: seq<Record>) returns (r: Result<Built, BootstrapError>)
    ensures r == BuildStreaming(b, records)
  {
    if !b.config.Valid() {
      return Err(InvalidLimits);
    }
    var p := START;
    var i := 0;
    while i < |records|
      invariant 0 <= i <= |records|
      invariant FeedAll(b, records[..i]) == Ok(p)
    {
      FeedPrefix(b, records, i);
      var next := FeedRecord(b, p, records[i]);
      if next.Err? {
        return Err(next.error);
      }
      p := next.value;
      i := i + 1;
    }
    assert records[..|records|] == records;
    return Finish(b, p);
  }

  /** A fault at record `i` is the result of the whole build. */
  lemma FeedPrefix(b: Build, records: seq<Record>, i: nat)
    requires i < |records| && FeedAll(b, records[..i]).Ok?
    ensures FeedAll(b, records[..i + 1]) == Feed(b, FeedAll(b, records[..i]).value, records[i])
    ensures FeedAll(b, records[..i + 1]).Err? ==> FeedAll(b, records) == FeedAll(b, records[..i + 1])
  {
    assert records[..i + 1][..i] == records[..i];
    if FeedAll(b, records[..i + 1]).Err? {
      FaultStays(b, records, i + 1);
    }
  }

  lemma {:induction false} FaultStays(b: Build, records: seq<Record>, i: nat)
    requires i <= |records| && FeedAll(b, records[..i]).Err?
    ensures FeedAll(b, records) == FeedAll(b, records[..i])
    decreases |records|
  {
    var n := |records|;
    if i == n {
      assert records[..n] == records;
    } else {
      assert records[..n - 1][..i] == records[..i];
      FaultStays(b, records[..n - 1], i);
    }
  }
}
