/**
 * The chunker is a lossless, bounded and greedy partition of its input, and building from an
 * unordered record set does not depend on the order it is given in
 * (`crates/aequora-bootstrap/src/lib.rs`).
 */
module ChunkerTheorems {
  import opened Base
  import opened Snapshot
  import opened Chunker

  /** Chunk `i` is the encoding of `part`, within both hard limits. */
  predicate PartOk(b: Build, chunk: Chunk, part: seq<Record>, i: nat) {
    && BuildChunk(b.env, b.snapshotId, i, part) == Ok(chunk)
    && |part| <= b.config.targetRecords
    && |chunk.bytes| <= b.config.maxChunkBytes
  }

  ghost predicate PartsOk(b: Build, chunks: seq<Chunk>, parts: seq<seq<Record>>) {
    |parts| == |chunks| && forall i :: 0 <= i < |chunks| ==> PartOk(b, chunks[i], parts[i], i)
  }

  /** The descriptors of the chunks emitted so far already form a verifiable list. */
  ghost predicate ListOk(chunks: seq<Chunk>, parts: seq<seq<Record>>, total: nat) {
    var ds := Descriptors(chunks);
    && EntriesOk(ds)
    && SumRecords(ds) == |Flatten(parts)|
    && SumCompressed(ds) == SumUncompressed(ds) == total
  }

  predicate Full(b: Build, part: seq<Record>) {
    || |part| >= b.config.targetRecords
    || (b.env.encode(part).Some? && |b.env.encode(part).value| >= b.config.targetBytes)
  }

  predicate Overflows(b: Build, part: seq<Record>) {
    b.env.encode(part).Some? && |b.env.encode(part).value| > b.config.maxChunkBytes
  }

  /** `part` was closed for a reason: it reached a target, or the next record did not fit. */
  predicate ClosedBefore(b: Build, part: seq<Record>, next: seq<Record>) {
    Full(b, part) || (next != [] && Overflows(b, part + [next[0]]))
  }

  function NextPart(parts: seq<seq<Record>>, i: nat, current: seq<Record>): seq<Record> {
    if i + 1 < |parts| then parts[i + 1] else current
  }

  ghost predicate Greedy(b: Build, parts: seq<seq<Record>>, current: seq<Record>) {
    forall i :: 0 <= i < |parts| ==> ClosedBefore(b, parts[i], NextPart(parts, i, current))
  }

  predicate CurrentOk(b: Build, current: seq<Record>) {
    && |current| < b.config.targetRecords
    && (current != [] ==> b.env.encode(current).Some? && |b.env.encode(current).value| <= b.config.maxChunkBytes)
  }

  /** Loop invariant: the records fed so far are the emitted parts followed by the current chunk. */
  ghost predicate Invariant(b: Build, p: Progress, fed: seq<Record>, parts: seq<seq<Record>>) {
    && PartsOk(b, p.chunks, parts)
    && ListOk(p.chunks, parts, p.total)
    && Flatten(parts) + p.current == fed
    && StrictlyIncreasing(fed)
    && p.previous == (if fed == [] then None else Some(fed[|fed| - 1].entity))
    && p.count == |fed|
    && CurrentOk(b, p.current)
    && Greedy(b, parts, p.current)
  }

  // ---------------------------------------------------------------------------------------------
  // Emitting one chunk
  // ---------------------------------------------------------------------------------------------

  lemma DescriptorsAppend(chunks: seq<Chunk>, chunk: Chunk)
    ensures Descriptors(chunks + [chunk]) == Descriptors(chunks) + [chunk.descriptor]
    ensures Descriptors(chunks + [chunk])[..|chunks|] == Descriptors(chunks)
  {
  }

  lemma FlattenAppend<T>(parts: seq<seq<T>>, part: seq<T>)
    ensures Flatten(parts + [part]) == Flatten(parts) + part
  {
    assert (parts + [part])[..|parts|] == parts;
  }

  /** What the new entry must satisfy, given the end of the range before it. */
  lemma NewEntryOk(b: Build, chunks: seq<Chunk>, parts: seq<seq<Record>>, records: seq<Record>, chunk: Chunk)
    requires PartsOk(b, chunks, parts) && records != [] && StrictlyIncreasing(Flatten(parts) + records)
    requires BuildChunk(b.env, b.snapshotId, |chunks|, records) == Ok(chunk)
    ensures !Lt(chunk.descriptor.range.last, chunk.descriptor.range.first)
    ensures |chunks| > 0 ==> Lt(chunks[|chunks| - 1].descriptor.range.last, chunk.descriptor.range.first)
  {
    var n, at := |chunks|, |Flatten(parts)|;
    var all := Flatten(parts) + records;
    if |records| > 1 {
      assert Lt(all[at].entity, all[|all| - 1].entity);
    }
    if n > 0 {
      assert PartOk(b, chunks[n - 1], parts[n - 1], n - 1);
      assert Flatten(parts)[at - 1] == parts[n - 1][|parts[n - 1]| - 1];
      assert Lt(all[at - 1].entity, all[at].entity);
    }
  }

  lemma EntriesAppend(ds: seq<ChunkDescriptor>, d: ChunkDescriptor)
    requires EntriesOk(ds) && EntryOk(ds + [d], |ds|)
    ensures EntriesOk(ds + [d])
  {
    forall i | 0 <= i < |ds| + 1 ensures EntryOk(ds + [d], i) {
      if i < |ds| {
        assert EntryOk(ds, i);
      }
    }
  }

  /** The new entry follows the last one in entity order. */
  lemma EntriesExtend(b: Build, chunks: seq<Chunk>, parts: seq<seq<Record>>, records: seq<Record>, chunk: Chunk)
    requires PartsOk(b, chunks, parts) && EntriesOk(Descriptors(chunks))
    requires records != [] && StrictlyIncreasing(Flatten(parts) + records)
    requires BuildChunk(b.env, b.snapshotId, |chunks|, records) == Ok(chunk)
    ensures EntriesOk(Descriptors(chunks + [chunk]))
  {
    DescriptorsAppend(chunks, chunk);
    NewEntryOk(b, chunks, parts, records, chunk);
    EntriesAppend(Descriptors(chunks), chunk.descriptor);
  }

  /** A chunk that was emitted is the last one and accounts for its size. */
  lemma EmitOutcome(b: Build, chunks: seq<Chunk>, total: nat, records: seq<Record>)
    requires Emit(b, chunks, total, records).Ok?
    ensures var (chunks', total') := Emit(b, chunks, total, records).value;
            var r := BuildChunk(b.env, b.snapshotId, |chunks|, records);
            && r.Ok? && chunks' == chunks + [r.value]
            && total' == total + r.value.descriptor.uncompressedBytes
  {
  }

  /** What a chunk says about the records it was built from. */
  lemma BuiltChunk(env: Env, snapshotId: nat, ordinal: nat, records: seq<Record>)
    requires BuildChunk(env, snapshotId, ordinal, records).Ok?
    ensures var chunk := BuildChunk(env, snapshotId, ordinal, records).value;
            && env.encode(records) == Some(chunk.bytes)
            && chunk.descriptor.recordCount == |records|
            && chunk.descriptor.compressedBytes == chunk.descriptor.uncompressedBytes == |chunk.bytes|
  {
  }

  lemma PartsAppend(b: Build, chunks: seq<Chunk>, parts: seq<seq<Record>>, chunk: Chunk, records: seq<Record>)
    requires PartsOk(b, chunks, parts) && PartOk(b, chunk, records, |chunks|)
    ensures PartsOk(b, chunks + [chunk], parts + [records])
  {
  }

  lemma ListAppend(chunks: seq<Chunk>, parts: seq<seq<Record>>, total: nat, chunk: Chunk, records: seq<Record>)
    requires ListOk(chunks, parts, total) && EntriesOk(Descriptors(chunks + [chunk]))
    requires chunk.descriptor.recordCount == |records|
    requires chunk.descriptor.compressedBytes == chunk.descriptor.uncompressedBytes
    ensures ListOk(chunks + [chunk], parts + [records], total + chunk.descriptor.uncompressedBytes)
  {
    DescriptorsAppend(chunks, chunk);
    FlattenAppend(parts, records);
  }

  lemma EmitExtends(b: Build, chunks: seq<Chunk>, total: nat, records: seq<Record>, parts: seq<seq<Record>>)
    requires PartsOk(b, chunks, parts) && ListOk(chunks, parts, total)
    requires StrictlyIncreasing(Flatten(parts) + records)
    requires 0 < |records| <= b.config.targetRecords
    requires b.env.encode(records).Some? && |b.env.encode(records).value| <= b.config.maxChunkBytes
    requires Emit(b, chunks, total, records).Ok?
    ensures var (chunks', total') := Emit(b, chunks, total, records).value;
            PartsOk(b, chunks', parts + [records]) && ListOk(chunks', parts + [records], total')
  {
    EmitOutcome(b, chunks, total, records);
    var chunk := BuildChunk(b.env, b.snapshotId, |chunks|, records).value;
    BuiltChunk(b.env, b.snapshotId, |chunks|, records);
    PartsAppend(b, chunks, parts, chunk, records);
    EntriesExtend(b, chunks, parts, records, chunk);
    ListAppend(chunks, parts, total, chunk, records);
  }

  // ---------------------------------------------------------------------------------------------
  // Feeding one record
  // ---------------------------------------------------------------------------------------------

  lemma IncreasingAppend(fed: seq<Record>, record: Record)
    requires StrictlyIncreasing(fed) && (fed != [] ==> Lt(fed[|fed| - 1].entity, record.entity))
    ensures StrictlyIncreasing(fed + [record])
  {
    forall i, j | 0 <= i < j < |fed| + 1 ensures Lt((fed + [record])[i].entity, (fed + [record])[j].entity) {
      if j == |fed| && i < |fed| - 1 {
        assert Lt(fed[i].entity, fed[|fed| - 1].entity);
      }
    }
  }

  lemma GreedyExtends(b: Build, parts: seq<seq<Record>>, part: seq<Record>, next: seq<Record>)
    requires Greedy(b, parts, part) && ClosedBefore(b, part, next)
    ensures Greedy(b, parts + [part], next)
  {
    forall i | 0 <= i < |parts| + 1
      ensures ClosedBefore(b, (parts + [part])[i], NextPart(parts + [part], i, next))
    {
      if i < |parts| {
        assert ClosedBefore(b, parts[i], NextPart(parts, i, part));
      }
    }
  }

  /** Growing the current chunk does not change its first record, unless it was empty. */
  lemma GreedyGrows(b: Build, parts: seq<seq<Record>>, current: seq<Record>, record: Record)
    requires Greedy(b, parts, current)
    ensures Greedy(b, parts, current + [record])
  {
    forall i | 0 <= i < |parts|
      ensures ClosedBefore(b, parts[i], NextPart(parts, i, current + [record]))
    {
      assert ClosedBefore(b, parts[i], NextPart(parts, i, current));
    }
  }

  /** What a successful `Feed` did, case by case. */
  lemma FeedOutcome(b: Build, p: Progress, record: Record)
    requires Feed(b, p, record).Ok?
    ensures p.previous.Some? ==> Lt(p.previous.value, record.entity)
    ensures var next := Feed(b, p, record).value;
            var current := p.current + [record];
            && b.env.encode(current).Some?
            && next.previous == Some(record.entity) && next.count == p.count + 1
            && if Overflows(b, current) then
                 && p.current != [] && next.current == [record]
                 && Emit(b, p.chunks, p.total, p.current) == Ok((next.chunks, next.total))
                 && b.env.encode([record]).Some? && |b.env.encode([record]).value| <= b.config.maxChunkBytes
               else if Full(b, current) then
                 && next.current == []
                 && Emit(b, p.chunks, p.total, current) == Ok((next.chunks, next.total))
               else
                 next.current == current && next.chunks == p.chunks && next.total == p.total
  {
  }

  /** The next record is in order and encodes together with the current chunk. */
  predicate Feedable(b: Build, p: Progress, record: Record) {
    (p.previous.Some? ==> Lt(p.previous.value, record.entity)) && b.env.encode(p.current + [record]).Some?
  }

  lemma SplitKeeps(b: Build, p: Progress, record: Record, fed: seq<Record>, parts: seq<seq<Record>>, next: Progress)
    requires Invariant(b, p, fed, parts) && Feedable(b, p, record)
    requires Overflows(b, p.current + [record]) && p.current != []
    requires b.env.encode([record]).Some? && |b.env.encode([record]).value| <= b.config.maxChunkBytes
    requires Emit(b, p.chunks, p.total, p.current) == Ok((next.chunks, next.total))
    requires next.current == [record] && next.previous == Some(record.entity) && next.count == p.count + 1
    ensures Invariant(b, next, fed + [record], parts + [p.current])
  {
    IncreasingAppend(fed, record);
    EmitExtends(b, p.chunks, p.total, p.current, parts);
    FlattenAppend(parts, p.current);
    GreedyExtends(b, parts, p.current, [record]);
  }

  lemma CloseKeeps(b: Build, p: Progress, record: Record, fed: seq<Record>, parts: seq<seq<Record>>, next: Progress)
    requires b.config.Valid() && Invariant(b, p, fed, parts) && Feedable(b, p, record)
    requires !Overflows(b, p.current + [record]) && Full(b, p.current + [record])
    requires Emit(b, p.chunks, p.total, p.current + [record]) == Ok((next.chunks, next.total))
    requires next.current == [] && next.previous == Some(record.entity) && next.count == p.count + 1
    ensures Invariant(b, next, fed + [record], parts + [p.current + [record]])
  {
    var current := p.current + [record];
    IncreasingAppend(fed, record);
    assert Flatten(parts) + current == fed + [record];
    EmitExtends(b, p.chunks, p.total, current, parts);
    FlattenAppend(parts, current);
    GreedyGrows(b, parts, p.current, record);
    GreedyExtends(b, parts, current, []);
  }

  lemma GrowKeeps(b: Build, p: Progress, record: Record, fed: seq<Record>, parts: seq<seq<Record>>, next: Progress)
    requires Invariant(b, p, fed, parts) && Feedable(b, p, record)
    requires !Overflows(b, p.current + [record]) && !Full(b, p.current + [record])
    requires next == Progress(p.chunks, p.current + [record], Some(record.entity), p.count + 1, p.total)
    ensures Invariant(b, next, fed + [record], parts)
  {
    IncreasingAppend(fed, record);
    assert Flatten(parts) + (p.current + [record]) == fed + [record];
    GreedyGrows(b, parts, p.current, record);
  }

  lemma FeedKeeps(b: Build, p: Progress, record: Record, fed: seq<Record>, parts: seq<seq<Record>>)
    returns (parts': seq<seq<Record>>)
    requires b.config.Valid() && Invariant(b, p, fed, parts) && Feed(b, p, record).Ok?
    ensures Invariant(b, Feed(b, p, record).value, fed + [record], parts')
  {
    var next := Feed(b, p, record).value;
    FeedOutcome(b, p, record);
    if Overflows(b, p.current + [record]) {
      SplitKeeps(b, p, record, fed, parts, next);
      parts' := parts + [p.current];
    } else if Full(b, p.current + [record]) {
      CloseKeeps(b, p, record, fed, parts, next);
      parts' := parts + [p.current + [record]];
    } else {
      GrowKeeps(b, p, record, fed, parts, next);
      parts' := parts;
    }
  }

  lemma StartKeeps(b: Build)
    requires b.config.Valid()
    ensures Invariant(b, START, [], [])
  {
  }

  lemma {:induction false} FeedAllKeeps(b: Build, records: seq<Record>) returns (parts: seq<seq<Record>>)
    requires b.config.Valid() && FeedAll(b, records).Ok?
    ensures Invariant(b, FeedAll(b, records).value, records, parts)
  {
    if records == [] {
      parts := [];
      StartKeeps(b);
    } else {
      var fed, record := records[..|records| - 1], records[|records| - 1];
      assert fed + [record] == records;
      var before := FeedAllKeeps(b, fed);
      parts := FeedKeeps(b, FeedAll(b, fed).value, record, fed, before);
    }
  }

  // ---------------------------------------------------------------------------------------------
  // The whole build
  // ---------------------------------------------------------------------------------------------

  /** What a successful build promises about its result. */
  ghost predicate RoundTrip(b: Build, records: seq<Record>, built: Built, parts: seq<seq<Record>>) {
    && ManifestOk(b.env, built.manifest)
    && DecodesTo(b.env, built.manifest, built.chunks, b.config.maxChunkBytes, parts)
    && Flatten(parts) == records
    && (forall i :: 0 <= i < |parts| ==> 1 <= |parts[i]| <= b.config.targetRecords)
    && (forall i :: 0 <= i < |parts| ==> |built.chunks[i].bytes| <= b.config.maxChunkBytes)
    && (forall i :: 0 <= i < |parts| - 1 ==> ClosedBefore(b, parts[i], parts[i + 1]))
    && ForThisBuild(b, built.manifest)
  }

  /** The manifest carries the identity it was asked for and respects the limits on the whole snapshot. */
  predicate ForThisBuild(b: Build, m: Manifest) {
    && m.snapshotId == b.snapshotId && m.boundary == b.boundary && m.schemaVersion == b.schemaVersion
    && |m.chunks| <= b.config.maxChunks && m.recordCount <= b.config.maxRecords
    && m.totalUncompressedBytes <= b.config.maxTotalBytes
  }

  /** A chunk that was built from ordered records decodes back to them. */
  lemma ChunkDecodes(b: Build, chunk: Chunk, part: seq<Record>, i: nat)
    requires b.env.Lossless() && PartOk(b, chunk, part, i) && AdjacentIncreasing(part)
    ensures DecodeVerified(b.env, chunk, chunk.descriptor, b.config.maxChunkBytes) == Ok(part)
  {
  }

  lemma {:induction false} PartsOfIncreasing(parts: seq<seq<Record>>, i: nat)
    requires StrictlyIncreasing(Flatten(parts)) && i < |parts|
    ensures AdjacentIncreasing(parts[i])
    decreases |parts|
  {
    var n := |parts| - 1;
    var head := Flatten(parts[..n]);
    if i == n {
      forall k | 0 < k < |parts[n]| ensures Lt(parts[n][k - 1].entity, parts[n][k].entity) {
        assert Lt(Flatten(parts)[|head| + k - 1].entity, Flatten(parts)[|head| + k].entity);
      }
    } else {
      forall a, c | 0 <= a < c < |head| ensures Lt(head[a].entity, head[c].entity) {
        assert Lt(Flatten(parts)[a].entity, Flatten(parts)[c].entity);
      }
      PartsOfIncreasing(parts[..n], i);
    }
  }

  lemma AllChunksDecode(b: Build, m: Manifest, chunks: seq<Chunk>, parts: seq<seq<Record>>)
    requires b.env.Lossless() && PartsOk(b, chunks, parts) && StrictlyIncreasing(Flatten(parts))
    requires m.chunks == Descriptors(chunks)
    ensures DecodesTo(b.env, m, chunks, b.config.maxChunkBytes, parts)
  {
    forall i | 0 <= i < |chunks|
      ensures DecodeVerified(b.env, chunks[i], m.chunks[i], b.config.maxChunkBytes) == Ok(parts[i])
    {
      PartsOfIncreasing(parts, i);
      assert PartOk(b, chunks[i], parts[i], i);
      ChunkDecodes(b, chunks[i], parts[i], i);
    }
  }

  lemma FinishOutcome(b: Build, p: Progress)
    requires Finish(b, p).Ok?
    ensures var built := Finish(b, p).value;
            var m := built.manifest;
            && (if p.current == [] then built.chunks == p.chunks && m.totalUncompressedBytes == p.total
                else Emit(b, p.chunks, p.total, p.current) == Ok((built.chunks, m.totalUncompressedBytes)))
            && m.formatVersion == MANIFEST_FORMAT_VERSION && m.recordCount == p.count
            && m.totalCompressedBytes == m.totalUncompressedBytes && m.chunks == Descriptors(built.chunks)
            && CalculateRoot(b.env, m) == Some(m.rootDigest)
  {
    var m := Finish(b, p).value.manifest;
    assert m.(rootDigest := []).(rootDigest := []) == m.(rootDigest := []);
  }

  predicate WithinLimits(b: Build, p: Progress) {
    |p.chunks| <= b.config.maxChunks && p.count <= b.config.maxRecords && p.total <= b.config.maxTotalBytes
  }

  lemma {:induction false} FeedAllWithinLimits(b: Build, records: seq<Record>)
    requires FeedAll(b, records).Ok?
    ensures WithinLimits(b, FeedAll(b, records).value)
  {
    if records == [] {
    } else {
      FeedAllWithinLimits(b, records[..|records| - 1]);
    }
  }

  lemma FinishWithinLimits(b: Build, p: Progress)
    requires WithinLimits(b, p) && Finish(b, p).Ok?
    ensures ForThisBuild(b, Finish(b, p).value.manifest)
  {
  }

  /** The last chunk is flushed: all records are now in the parts. */
  lemma FinishFlushes(b: Build, p: Progress, records: seq<Record>, parts: seq<seq<Record>>)
    returns (all: seq<seq<Record>>)
    requires Invariant(b, p, records, parts) && Finish(b, p).Ok?
    ensures var built := Finish(b, p).value;
            && PartsOk(b, built.chunks, all)
            && ListOk(built.chunks, all, built.manifest.totalUncompressedBytes)
            && Flatten(all) == records
            && forall i :: 0 <= i < |all| - 1 ==> ClosedBefore(b, all[i], all[i + 1])
  {
    FinishOutcome(b, p);
    if p.current == [] {
      all := parts;
      assert Flatten(parts) + p.current == Flatten(parts);
    } else {
      EmitExtends(b, p.chunks, p.total, p.current, parts);
      FlattenAppend(parts, p.current);
      all := parts + [p.current];
    }
    forall i | 0 <= i < |all| - 1 ensures ClosedBefore(b, all[i], all[i + 1]) {
      assert ClosedBefore(b, parts[i], NextPart(parts, i, p.current));
    }
  }

  /**
   * Round trip of the streaming chunker: whenever it succeeds, the manifest verifies, every chunk
   * holds 1 to `targetRecords` records in at most `maxChunkBytes` bytes and decodes under that
   * limit, the decoded chunks concatenate to exactly the input, no chunk but the last could have
   * taken the next record without reaching a limit first, and the limits on the whole snapshot hold.
   */
  lemma StreamingRoundTrip(b: Build, records: seq<Record>) returns (parts: seq<seq<Record>>)
    requires b.env.Lossless() && BuildStreaming(b, records).Ok?
    ensures RoundTrip(b, records, BuildStreaming(b, records).value, parts)
  {
    var before := FeedAllKeeps(b, records);
    var p := FeedAll(b, records).value;
    FinishOutcome(b, p);
    FeedAllWithinLimits(b, records);
    FinishWithinLimits(b, p);
    parts := FinishFlushes(b, p, records, before);
    var built := Finish(b, p).value;
    AllChunksDecode(b, built.manifest, built.chunks, parts);
    forall i | 0 <= i < |parts|
      ensures 1 <= |parts[i]| <= b.config.targetRecords && |built.chunks[i].bytes| <= b.config.maxChunkBytes
    {
      assert PartOk(b, built.chunks[i], parts[i], i);
    }
  }

  // ---------------------------------------------------------------------------------------------
  // Building from an unordered record set
  // ---------------------------------------------------------------------------------------------

  predicate EntityLe(a: Record, b: Record) {
    !Lt(b.entity, a.entity)
  }

  /** A stable sort by entity. */
  function SortByEntity(records: seq<Record>): seq<Record> {
    if records == [] then []
    else Insert(EntityLe, SortByEntity(records[..|records| - 1]), records[|records| - 1])
  }

  /** `SnapshotManifest::build`, with a sink that accepts everything. */
  function BuildSorted(b: Build, records: seq<Record>): Result<Built, BootstrapError> {
    if !b.config.Valid() then Err(InvalidLimits)
    else if |records| > b.config.maxRecords then Err(RecordLimit)
    else BuildStreaming(b.(sink := _ => true), SortByEntity(records))
  }

  ghost predicate DistinctEntities(records: seq<Record>) {
    forall i, j :: 0 <= i < j < |records| ==> records[i].entity != records[j].entity
  }

  lemma {:induction false} SortAscends(records: seq<Record>)
    ensures Sorted(EntityLe, SortByEntity(records)) && multiset(SortByEntity(records)) == multiset(records)
  {
    if records == [] {
    } else {
      var n := |records| - 1;
      SortAscends(records[..n]);
      InsertSorts(EntityLe, SortByEntity(records[..n]), records[n]);
      InsertCounts(EntityLe, SortByEntity(records[..n]), records[n]);
      MultisetFront(records);
    }
  }

  lemma {:induction false} DistinctByCount(a: seq<Record>, b: seq<Record>)
    requires multiset(a) == multiset(b) && DistinctEntities(a)
    ensures DistinctEntities(b)
  {
    forall i, j | 0 <= i < j < |b| ensures b[i].entity != b[j].entity {
      if b[i].entity == b[j].entity {
        assert b[i] in multiset(a) && b[j] in multiset(a);
        var x :| 0 <= x < |a| && a[x] == b[i];
        var y :| 0 <= y < |a| && a[y] == b[j];
        if b[i] == b[j] {
          TwiceInB(b, i, j);
          OnceInA(a, x);
        }
      }
    }
  }

  lemma TwiceInB(s: seq<Record>, i: nat, j: nat)
    requires i < j < |s| && s[i] == s[j]
    ensures multiset(s)[s[i]] >= 2
  {
    assert s == s[..i] + [s[i]] + s[i + 1..j] + [s[j]] + s[j + 1..];
  }

  lemma OnceInA(s: seq<Record>, x: nat)
    requires DistinctEntities(s) && x < |s|
    ensures multiset(s)[s[x]] == 1
  {
    assert s == s[..x] + [s[x]] + s[x + 1..];
    assert s[x] !in s[..x] && s[x] !in s[x + 1..];
  }

  lemma LastIsSame(a: seq<Record>, b: seq<Record>)
    requires Sorted(EntityLe, a) && Sorted(EntityLe, b) && multiset(a) == multiset(b) && DistinctEntities(a)
    requires |a| == |b| > 0
    ensures a[|a| - 1] == b[|b| - 1]
  {
    var n := |a| - 1;
    assert a[n] in multiset(b) && b[n] in multiset(a);
    var x :| 0 <= x < |a| && a[x] == b[n];
    var y :| 0 <= y < |b| && b[y] == a[n];
  }

  lemma FrontsAgree(a: seq<Record>, b: seq<Record>)
    requires Sorted(EntityLe, a) && DistinctEntities(a) && multiset(a) == multiset(b)
    requires |a| == |b| > 0 && a[|a| - 1] == b[|b| - 1]
    ensures Sorted(EntityLe, a[..|a| - 1]) && DistinctEntities(a[..|a| - 1])
    ensures multiset(a[..|a| - 1]) == multiset(b[..|b| - 1])
  {
    MultisetFront(a);
    MultisetFront(b);
    assert multiset(a[..|a| - 1]) == multiset(a) - multiset{a[|a| - 1]};
    assert multiset(b[..|b| - 1]) == multiset(b) - multiset{b[|b| - 1]};
  }

  /** Two ascending lists of the same distinct records are the same list. */
  lemma {:induction false} AscendingIsUnique(a: seq<Record>, b: seq<Record>)
    requires Sorted(EntityLe, a) && Sorted(EntityLe, b) && multiset(a) == multiset(b) && DistinctEntities(a)
    ensures a == b
    decreases |a|
  {
    assert |a| == |multiset(a)| == |multiset(b)| == |b|;
    if a == [] {
    } else {
      var n := |a| - 1;
      LastIsSame(a, b);
      FrontsAgree(a, b);
      AscendingIsUnique(a[..n], b[..n]);
      assert a == a[..n] + [a[n]] && b == b[..n] + [b[n]];
    }
  }

  /** For distinct entities, every order of the same records builds the same snapshot. */
  lemma BuildIgnoresInputOrder(b: Build, records: seq<Record>, permuted: seq<Record>)
    requires multiset(records) == multiset(permuted) && DistinctEntities(records)
    ensures BuildSorted(b, records) == BuildSorted(b, permuted)
  {
    assert |records| == |multiset(records)| == |permuted|;
    SortAscends(records);
    SortAscends(permuted);
    DistinctByCount(records, SortByEntity(records));
    AscendingIsUnique(SortByEntity(records), SortByEntity(permuted));
  }

  /** A built snapshot holds exactly the given records, and repeated entities never build. */
  lemma BuildRoundTrip(b: Build, records: seq<Record>) returns (parts: seq<seq<Record>>)
    requires b.env.Lossless() && BuildSorted(b, records).Ok?
    ensures RoundTrip(b.(sink := _ => true), SortByEntity(records), BuildSorted(b, records).value, parts)
    ensures multiset(Flatten(parts)) == multiset(records) && DistinctEntities(records)
  {
    var b' := b.(sink := _ => true);
    parts := StreamingRoundTrip(b', SortByEntity(records));
    var built := BuildSorted(b, records).value;
    AcceptedSnapshotIsOrdered(b.env, built.manifest, built.chunks, b.config.maxChunkBytes, parts);
    SortAscends(records);
    DistinctByCount(Flatten(parts), records);
  }
}
