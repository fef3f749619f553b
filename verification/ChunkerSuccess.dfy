/**
 * When the chunker succeeds and what it then returns: exactly when its input is in strict entity
 * order, everything it has to encode can be encoded, and the chunks that the closing rule alone
 * prescribes are within the limits and taken by the sink (`crates/aequora-bootstrap/src/lib.rs`).
 */
module ChunkerSuccess {
  import opened Base
  import opened Snapshot
  import opened Chunker
  import opened ChunkerTheorems

  // ---------------------------------------------------------------------------------------------
  // Where the closing rule cuts, with no limit on the whole
  // ---------------------------------------------------------------------------------------------

  /** Closed parts, and the open one. */
  datatype Cut = Cut(parts: seq<seq<Record>>, current: seq<Record>)

  predicate Splits(b: Build, cut: Cut, record: Record) {
    cut.current != [] && Overflows(b, cut.current + [record])
  }

  function CutOne(b: Build, cut: Cut, record: Record): Cut {
    var grown := cut.current + [record];
    if Splits(b, cut, record) then Cut(cut.parts + [cut.current], [record])
    else if Full(b, grown) then Cut(cut.parts + [grown], [])
    else Cut(cut.parts, grown)
  }

  function CutAll(b: Build, records: seq<Record>): Cut {
    if records == [] then Cut([], []) else CutOne(b, CutAll(b, records[..|records| - 1]), records[|records| - 1])
  }

  function Close(cut: Cut): seq<seq<Record>> {
    if cut.current == [] then cut.parts else cut.parts + [cut.current]
  }

  /** The chunks that the closing rule prescribes for `records`. */
  function PrescribedParts(b: Build, records: seq<Record>): seq<seq<Record>> {
    Close(CutAll(b, records))
  }

  /** Adding this record asks for no encoding that fails. */
  predicate PushEncodes(b: Build, cut: Cut, record: Record) {
    b.env.encode(cut.current + [record]).Some? && (Splits(b, cut, record) ==> b.env.encode([record]).Some?)
  }

  ghost predicate AllEncode(b: Build, records: seq<Record>) {
    forall n :: 0 <= n < |records| ==> PushEncodes(b, CutAll(b, records[..n]), records[n])
  }

  // ---------------------------------------------------------------------------------------------
  // The chunks of a list of parts
  // ---------------------------------------------------------------------------------------------

  /** Stands in for a chunk that cannot be built. */
  const NO_CHUNK := Chunk(
    ChunkDescriptor([], 0, EntityRange(EntityRef(0, 0), EntityRef(0, 0)), 0, 0, 0, [], Uncompressed, Service), [])

  function ChunkOf(b: Build, ordinal: nat, part: seq<Record>): Chunk {
    var r := BuildChunk(b.env, b.snapshotId, ordinal, part);
    if r.Ok? then r.value else NO_CHUNK
  }

  function Chunks(b: Build, parts: seq<seq<Record>>): (r: seq<Chunk>)
    ensures |r| == |parts|
  {
    if parts == [] then []
    else Chunks(b, parts[..|parts| - 1]) + [ChunkOf(b, |parts| - 1, parts[|parts| - 1])]
  }

  function Size(b: Build, part: seq<Record>): nat {
    if b.env.encode(part).Some? then |b.env.encode(part).value| else 0
  }

  function SizeOf(b: Build, parts: seq<seq<Record>>): nat {
    if parts == [] then 0 else SizeOf(b, parts[..|parts| - 1]) + Size(b, parts[|parts| - 1])
  }

  /** The first record of a part fits into a chunk on its own. */
  predicate FirstFits(b: Build, part: seq<Record>) {
    part != [] ==> Size(b, [part[0]]) <= b.config.maxChunkBytes
  }

  /** Every part starts with a record that fits, and the sink takes its chunk after those before it. */
  predicate PartsTaken(b: Build, parts: seq<seq<Record>>) {
    || parts == []
    || (PartsTaken(b, parts[..|parts| - 1]) && FirstFits(b, parts[|parts| - 1]) && b.sink(Chunks(b, parts)))
  }

  /** The limits on single chunks and on all of them together hold, and the sink takes every chunk. */
  predicate PartsFit(b: Build, parts: seq<seq<Record>>) {
    && |parts| <= b.config.maxChunks && |parts| <= U32_MAX + 1
    && SizeOf(b, parts) <= b.config.maxTotalBytes
    && PartsTaken(b, parts)
  }

  ghost predicate CutFits(b: Build, cut: Cut) {
    PartsFit(b, cut.parts) && FirstFits(b, cut.current)
  }

  lemma ChunksAppend(b: Build, parts: seq<seq<Record>>, part: seq<Record>)
    ensures SizeOf(b, parts + [part]) == SizeOf(b, parts) + Size(b, part)
    ensures Chunks(b, parts + [part]) == Chunks(b, parts) + [ChunkOf(b, |parts|, part)]
  {
    assert (parts + [part])[..|parts|] == parts;
  }

  lemma FitsAppend(b: Build, parts: seq<seq<Record>>, part: seq<Record>)
    ensures PartsFit(b, parts + [part])
            <==> && PartsFit(b, parts) && FirstFits(b, part)
                 && |parts| < b.config.maxChunks && |parts| <= U32_MAX
                 && SizeOf(b, parts) + Size(b, part) <= b.config.maxTotalBytes
                 && b.sink(Chunks(b, parts + [part]))
  {
    ChunksAppend(b, parts, part);
    assert (parts + [part])[..|parts|] == parts;
  }

  /** Cutting on never makes a cut fit that did not. */
  lemma FitsBefore(b: Build, cut: Cut, record: Record)
    requires CutFits(b, CutOne(b, cut, record))
    ensures CutFits(b, cut)
  {
    var grown := cut.current + [record];
    FitsAppend(b, cut.parts, cut.current);
    FitsAppend(b, cut.parts, grown);
    assert cut.current != [] ==> grown[0] == cut.current[0];
  }

  // ---------------------------------------------------------------------------------------------
  // The loop follows the cut
  // ---------------------------------------------------------------------------------------------

  ghost predicate Follows(b: Build, p: Progress, cut: Cut, n: nat) {
    && p.current == cut.current && p.chunks == Chunks(b, cut.parts) && p.total == SizeOf(b, cut.parts)
    && p.count == n && |cut.current| <= n <= b.config.maxRecords
    && (cut.current != [] ==> b.env.encode(cut.current).Some?)
    && CutFits(b, cut)
  }

  lemma EmitIff(b: Build, parts: seq<seq<Record>>, part: seq<Record>)
    requires PartsFit(b, parts) && FirstFits(b, part) && 0 < |part| <= U64_MAX && b.env.encode(part).Some?
    ensures var emitted := Emit(b, Chunks(b, parts), SizeOf(b, parts), part);
            && (emitted.Ok? <==> PartsFit(b, parts + [part]))
            && (emitted.Ok? ==> emitted.value == (Chunks(b, parts + [part]), SizeOf(b, parts + [part])))
  {
    FitsAppend(b, parts, part);
    ChunksAppend(b, parts, part);
  }

  /** The next record is in order and within the record limit. */
  predicate Acceptable(b: Build, p: Progress, record: Record) {
    (p.previous.Some? ==> Lt(p.previous.value, record.entity)) && p.count < b.config.maxRecords
  }

  /** What feeding one record comes to, in terms of the cut. */
  ghost predicate FeedsAs(b: Build, p: Progress, cut: Cut, n: nat, record: Record) {
    && (Feed(b, p, record).Ok? <==> PushEncodes(b, cut, record) && CutFits(b, CutOne(b, cut, record)))
    && (Feed(b, p, record).Ok? ==> Follows(b, Feed(b, p, record).value, CutOne(b, cut, record), n + 1))
  }

  lemma FeedSplits(b: Build, p: Progress, cut: Cut, n: nat, record: Record)
    requires Follows(b, p, cut, n) && Acceptable(b, p, record) && Splits(b, cut, record)
    ensures FeedsAs(b, p, cut, n, record)
  {
    EmitIff(b, cut.parts, cut.current);
    assert [record][0] == record;
  }

  lemma FeedGrows(b: Build, p: Progress, cut: Cut, n: nat, record: Record)
    requires Follows(b, p, cut, n) && Acceptable(b, p, record) && !Overflows(b, cut.current + [record])
    ensures FeedsAs(b, p, cut, n, record)
  {
    var grown := cut.current + [record];
    if b.env.encode(grown).Some? {
      assert FirstFits(b, grown) by {
        if cut.current == [] {
          assert grown == [record];
        } else {
          assert grown[0] == cut.current[0];
        }
      }
      if Full(b, grown) {
        EmitIff(b, cut.parts, grown);
      }
    }
  }

  lemma FeedRefusesLarge(b: Build, p: Progress, cut: Cut, n: nat, record: Record)
    requires Follows(b, p, cut, n) && cut.current == [] && Overflows(b, [record])
    ensures FeedsAs(b, p, cut, n, record)
  {
    assert cut.current + [record] == [record];
    FitsAppend(b, cut.parts, [record]);
  }

  lemma FeedNeeds(b: Build, p: Progress, record: Record)
    requires Feed(b, p, record).Ok?
    ensures Acceptable(b, p, record) && Feed(b, p, record).value.previous == Some(record.entity)
  {
  }

  lemma FeedIff(b: Build, p: Progress, cut: Cut, n: nat, record: Record)
    requires Follows(b, p, cut, n)
    ensures Feed(b, p, record).Ok?
            <==> Acceptable(b, p, record) && PushEncodes(b, cut, record) && CutFits(b, CutOne(b, cut, record))
    ensures Feed(b, p, record).Ok? ==>
              && Follows(b, Feed(b, p, record).value, CutOne(b, cut, record), n + 1)
              && Feed(b, p, record).value.previous == Some(record.entity)
  {
    if Feed(b, p, record).Ok? {
      FeedNeeds(b, p, record);
    }
    if Acceptable(b, p, record) {
      if !Overflows(b, cut.current + [record]) {
        FeedGrows(b, p, cut, n, record);
      } else if cut.current != [] {
        FeedSplits(b, p, cut, n, record);
      } else {
        assert cut.current + [record] == [record];
        FeedRefusesLarge(b, p, cut, n, record);
      }
    }
  }

  lemma IncreasingFront(records: seq<Record>)
    requires records != []
    ensures var n := |records| - 1;
            StrictlyIncreasing(records)
            <==> StrictlyIncreasing(records[..n]) && (n > 0 ==> Lt(records[n - 1].entity, records[n].entity))
  {
    var n := |records| - 1;
    assert records == records[..n] + [records[n]];
    if StrictlyIncreasing(records[..n]) && (n > 0 ==> Lt(records[n - 1].entity, records[n].entity)) {
      IncreasingAppend(records[..n], records[n]);
    }
  }

  lemma EncodeFront(b: Build, records: seq<Record>)
    requires records != []
    ensures var n := |records| - 1;
            AllEncode(b, records)
            <==> AllEncode(b, records[..n]) && PushEncodes(b, CutAll(b, records[..n]), records[n])
  {
    var n := |records| - 1;
    assert forall i :: 0 <= i < n ==> records[..n][..i] == records[..i] && records[..n][i] == records[i];
    if AllEncode(b, records) {
      forall i | 0 <= i < n ensures PushEncodes(b, CutAll(b, records[..n][..i]), records[..n][i]) {
        assert PushEncodes(b, CutAll(b, records[..i]), records[i]);
      }
    }
  }

  /** The conditions on the records fed so far. */
  ghost predicate Takeable(b: Build, records: seq<Record>) {
    && StrictlyIncreasing(records) && |records| <= b.config.maxRecords
    && AllEncode(b, records) && CutFits(b, CutAll(b, records))
  }

  lemma {:induction false} FeedAllIff(b: Build, records: seq<Record>)
    ensures FeedAll(b, records).Ok? <==> Takeable(b, records)
    ensures FeedAll(b, records).Ok? ==>
              && Follows(b, FeedAll(b, records).value, CutAll(b, records), |records|)
              && FeedAll(b, records).value.previous
                 == if records == [] then None else Some(records[|records| - 1].entity)
  {
    if records == [] {
    } else {
      var n := |records| - 1;
      FeedAllIff(b, records[..n]);
      IncreasingFront(records);
      EncodeFront(b, records);
      if FeedAll(b, records[..n]).Ok? {
        FeedIff(b, FeedAll(b, records[..n]).value, CutAll(b, records[..n]), n, records[n]);
      } else if CutFits(b, CutAll(b, records)) {
        FitsBefore(b, CutAll(b, records[..n]), records[n]);
      }
    }
  }

  // ---------------------------------------------------------------------------------------------
  // The whole build
  // ---------------------------------------------------------------------------------------------

  /** What is to be hashed for the root of the manifest of these parts. */
  function Draft(b: Build, records: nat, parts: seq<seq<Record>>): Option<Manifest> {
    if records > U64_MAX || SizeOf(b, parts) > U64_MAX then None
    else Some(Manifest(MANIFEST_FORMAT_VERSION, b.snapshotId, b.boundary, b.schemaVersion, records,
                       SizeOf(b, parts), SizeOf(b, parts), [], Descriptors(Chunks(b, parts))))
  }

  /** The snapshot of these parts, if its root can be computed. */
  function SnapshotOf(b: Build, records: nat, parts: seq<seq<Record>>): Option<Built> {
    var draft := Draft(b, records, parts);
    if draft.None? || CalculateRoot(b.env, draft.value).None? then None
    else Some(Built(draft.value.(rootDigest := CalculateRoot(b.env, draft.value).value), Chunks(b, parts)))
  }

  function Prescribed(b: Build, records: seq<Record>): Option<Built> {
    SnapshotOf(b, |records|, PrescribedParts(b, records))
  }

  /** Once the open chunk is flushed, only the root can still fail. */
  lemma FinishFlushed(b: Build, p: Progress, parts: seq<seq<Record>>)
    requires p.count <= U64_MAX && SizeOf(b, parts) <= U64_MAX
    requires if p.current == [] then p.chunks == Chunks(b, parts) && p.total == SizeOf(b, parts)
             else Emit(b, p.chunks, p.total, p.current) == Ok((Chunks(b, parts), SizeOf(b, parts)))
    ensures Finish(b, p).Ok? <==> SnapshotOf(b, p.count, parts).Some?
    ensures Finish(b, p).Ok? ==> Some(Finish(b, p).value) == SnapshotOf(b, p.count, parts)
  {
  }

  lemma FinishIff(b: Build, records: seq<Record>, p: Progress)
    requires Follows(b, p, CutAll(b, records), |records|)
    ensures Finish(b, p).Ok? <==> PartsFit(b, PrescribedParts(b, records)) && Prescribed(b, records).Some?
    ensures Finish(b, p).Ok? ==> Some(Finish(b, p).value) == Prescribed(b, records)
  {
    var cut := CutAll(b, records);
    if cut.current != [] {
      EmitIff(b, cut.parts, cut.current);
    }
    if PartsFit(b, PrescribedParts(b, records)) {
      FinishFlushed(b, p, PrescribedParts(b, records));
    }
  }

  /** Everything that a build of these records needs. */
  ghost predicate Buildable(b: Build, records: seq<Record>) {
    && b.config.Valid() && StrictlyIncreasing(records) && |records| <= b.config.maxRecords
    && AllEncode(b, records) && PartsFit(b, PrescribedParts(b, records)) && Prescribed(b, records).Some?
  }

  lemma FitsWhileFed(b: Build, records: seq<Record>)
    requires PartsFit(b, PrescribedParts(b, records))
    ensures CutFits(b, CutAll(b, records))
  {
    var cut := CutAll(b, records);
    FitsAppend(b, cut.parts, cut.current);
  }

  /**
   * Streaming succeeds if and only if the limits are valid, the input is in strict entity order and
   * within the record limit, nothing it has to encode fails, and the prescribed chunks are within
   * the limits and taken by the sink; and then it returns exactly the prescribed snapshot.
   */
  lemma BuildsIffBuildable(b: Build, records: seq<Record>)
    ensures BuildStreaming(b, records).Ok? <==> Buildable(b, records)
    ensures BuildStreaming(b, records).Ok? ==> Some(BuildStreaming(b, records).value) == Prescribed(b, records)
  {
    FeedAllIff(b, records);
    if FeedAll(b, records).Ok? {
      FinishIff(b, records, FeedAll(b, records).value);
    } else if PartsFit(b, PrescribedParts(b, records)) {
      FitsWhileFed(b, records);
    }
  }

  /** A record set builds if and only if no entity repeats and its sorted form is buildable otherwise. */
  lemma BuildsIffDistinct(b: Build, records: seq<Record>)
    ensures var b', sorted := b.(sink := _ => true), SortByEntity(records);
            BuildSorted(b, records).Ok?
            <==> && b.config.Valid() && DistinctEntities(records) && |records| <= b.config.maxRecords
                 && AllEncode(b', sorted) && PartsFit(b', PrescribedParts(b', sorted)) && Prescribed(b', sorted).Some?
  {
    var sorted := SortByEntity(records);
    SortAscends(records);
    BuildsIffBuildable(b.(sink := _ => true), sorted);
    assert |records| == |multiset(records)| == |sorted|;
    OrderedIffDistinct(records, sorted);
  }

  lemma OrderedIffDistinct(records: seq<Record>, sorted: seq<Record>)
    requires Sorted(EntityLe, sorted) && multiset(sorted) == multiset(records)
    ensures StrictlyIncreasing(sorted) <==> DistinctEntities(records)
  {
    if DistinctEntities(records) {
      DistinctByCount(records, sorted);
      forall i, j | 0 <= i < j < |sorted| ensures Lt(sorted[i].entity, sorted[j].entity) {
        assert EntityLe(sorted[i], sorted[j]) && sorted[i].entity != sorted[j].entity;
      }
    } else if StrictlyIncreasing(sorted) {
      DistinctByCount(sorted, records);
    }
  }
}
