/**
 * Snapshot manifests and chunks (`crates/aequora-bootstrap/src/lib.rs`): the data model, manifest
 * verification and verified chunk decoding.
 */
module Snapshot {
  import opened Base

  const MANIFEST_FORMAT_VERSION := 1

  type Digest = Bytes

  /** Entities are ordered by type, then by identity. */
  datatype EntityRef = EntityRef(entityType: nat, entityId: nat)

  predicate Lt(a: EntityRef, b: EntityRef) {
    a.entityType < b.entityType || (a.entityType == b.entityType && a.entityId < b.entityId)
  }

  datatype Record = Record(entity: EntityRef, version: u64, payload: Bytes, tombstone: bool)

  datatype EntityRange = EntityRange(first: EntityRef, last: EntityRef)

  datatype Compression = Uncompressed | Zstd

  datatype Location = Service | HttpRange(objectRef: string) | ObjectStore(objectRef: string, viaCdn: bool)

  datatype ChunkDescriptor = ChunkDescriptor(
    chunkId: Digest, ordinal: u32, range: EntityRange, recordCount: u64, compressedBytes: u64,
    uncompressedBytes: u64, digest: Digest, compression: Compression, location: Location)

  datatype Boundary = Boundary(
    authorityId: nat, scopeId: nat, scopeVersion: nat, scopeGeneration: nat, sequence: u64, epoch: u64)

  datatype Manifest = Manifest(
    formatVersion: u32, snapshotId: nat, boundary: Boundary, schemaVersion: u64, recordCount: u64,
    totalUncompressedBytes: u64, totalCompressedBytes: u64, rootDigest: Digest, chunks: seq<ChunkDescriptor>)

  datatype Chunk = Chunk(descriptor: ChunkDescriptor, bytes: Bytes)

  datatype BootstrapError =
    | UnsupportedManifestVersion | Overflow | ChunkOrder | EntityOrder | DuplicateEntity
    | BlankObjectReference | ManifestTotals | RootMismatch | Serialization | ChunkIdentityMismatch
    | ChunkByteLimit | ChunkDigestMismatch | ChunkRecordCount | InvalidLimits | RecordLimit
    | ChunkLimit | TotalByteLimit | SinkFailure | IllegalTransition | ResumeIdentityMismatch
    | BlankObjectIdentity | UnknownChunk | RangeResumeMismatch | InvalidChunkState
    | RangeCompletionMismatch | LeaseIdentityMismatch | LeaseExpired | JournalGap | NotReadyToActivate
    | IncompleteStaging | AuthorizationRevoked | ScopeChanged | AuthorityEpochChanged
    | StagingNotVerified | PendingIntentChanged

  /**
   * Foreign code, kept abstract: the Postcard encodings of a record list and of the fields that
   * enter the root digest, BLAKE3, and the bytes of a snapshot identifier. Encoding may fail.
   */
  datatype Env = Env(
    encode: seq<Record> -> Option<Bytes>,
    decode: Bytes -> Option<seq<Record>>,
    encodeRoot: Manifest -> Option<Bytes>,
    hash: Bytes -> Digest,
    idBytes: nat -> Bytes)
  {
    /** Decoding undoes encoding. */
    ghost predicate Lossless() {
      forall records :: encode(records).Some? ==> decode(encode(records).value) == Some(records)
    }
  }

  // ---------------------------------------------------------------------------------------------
  // Order
  // ---------------------------------------------------------------------------------------------

  ghost predicate StrictlyIncreasing(records: seq<Record>) {
    forall i, j :: 0 <= i < j < |records| ==> Lt(records[i].entity, records[j].entity)
  }

  /** Adjacent records are in order: what a pass over windows of two checks. */
  predicate AdjacentIncreasing(records: seq<Record>) {
    forall i :: 0 < i < |records| ==> Lt(records[i - 1].entity, records[i].entity)
  }

  lemma {:induction false} AdjacentIsEnough(records: seq<Record>, i: nat, j: nat)
    requires AdjacentIncreasing(records) && i < j < |records|
    ensures Lt(records[i].entity, records[j].entity)
    decreases j
  {
    if i < j - 1 {
      AdjacentIsEnough(records, i, j - 1);
    }
  }

  // ---------------------------------------------------------------------------------------------
  // Manifest verification
  // ---------------------------------------------------------------------------------------------

  /** Unicode white space, as `str::trim` strips it. */
  predicate IsWhitespace(c: char) {
    var u := c as int;
    || 0x09 <= u <= 0x0D || u == 0x20 || u == 0x85 || u == 0xA0 || u == 0x1680 || 0x2000 <= u <= 0x200A
    || u == 0x2028 || u == 0x2029 || u == 0x202F || u == 0x205F || u == 0x3000
  }

  predicate Blank(s: string) {
    forall i :: 0 <= i < |s| ==> IsWhitespace(s[i])
  }

  predicate LocationOk(location: Location) {
    location.Service? || !Blank(location.objectRef)
  }

  function CalculateRoot(env: Env, m: Manifest): Option<Digest> {
    match env.encodeRoot(m.(rootDigest := []))
    case None => None
    case Some(bytes) => Some(env.hash(bytes))
  }

  function SumRecords(chunks: seq<ChunkDescriptor>): nat {
    if chunks == [] then 0 else SumRecords(chunks[..|chunks| - 1]) + chunks[|chunks| - 1].recordCount
  }

  function SumCompressed(chunks: seq<ChunkDescriptor>): nat {
    if chunks == [] then 0 else SumCompressed(chunks[..|chunks| - 1]) + chunks[|chunks| - 1].compressedBytes
  }

  function SumUncompressed(chunks: seq<ChunkDescriptor>): nat {
    if chunks == [] then 0 else SumUncompressed(chunks[..|chunks| - 1]) + chunks[|chunks| - 1].uncompressedBytes
  }

  /** What one manifest entry must satisfy at its place in the list. */
  predicate EntryOk(chunks: seq<ChunkDescriptor>, i: nat)
    requires i < |chunks|
  {
    && i <= U32_MAX
    && chunks[i].ordinal == i
    && chunks[i].recordCount != 0
    && !Lt(chunks[i].range.last, chunks[i].range.first)
    && (i > 0 ==> Lt(chunks[i - 1].range.last, chunks[i].range.first))
    && LocationOk(chunks[i].location)
  }

  /** The checks on one entry in the order they are made, given the end of the previous range. */
  function EntryFault(chunk: ChunkDescriptor, i: nat, previousLast: Option<EntityRef>): (r: Option<BootstrapError>)
    ensures r.Some? ==> r.value in {Overflow, ChunkOrder, EntityOrder, BlankObjectReference}
    ensures r.None? <==>
            && i <= U32_MAX && chunk.ordinal == i && chunk.recordCount != 0
            && !Lt(chunk.range.last, chunk.range.first) && LocationOk(chunk.location)
            && (previousLast.Some? ==> Lt(previousLast.value, chunk.range.first))
  {
    if i > U32_MAX then Some(Overflow)
    else if chunk.ordinal != i || chunk.recordCount == 0 then Some(ChunkOrder)
    else if Lt(chunk.range.last, chunk.range.first)
            || (previousLast.Some? && !Lt(previousLast.value, chunk.range.first)) then Some(EntityOrder)
    else if !LocationOk(chunk.location) then Some(BlankObjectReference)
    else None
  }

  predicate EntriesOk(chunks: seq<ChunkDescriptor>) {
    forall i :: 0 <= i < |chunks| ==> EntryOk(chunks, i)
  }

  predicate TotalsOk(m: Manifest) {
    && SumRecords(m.chunks) == m.recordCount
    && SumCompressed(m.chunks) == m.totalCompressedBytes
    && SumUncompressed(m.chunks) == m.totalUncompressedBytes
  }

  /** A manifest that passes verification. */
  predicate ManifestOk(env: Env, m: Manifest) {
    && m.formatVersion == MANIFEST_FORMAT_VERSION
    && EntriesOk(m.chunks)
    && TotalsOk(m)
    && CalculateRoot(env, m) == Some(m.rootDigest)
  }

  lemma {:induction false} SumsGrow(chunks: seq<ChunkDescriptor>, i: nat)
    requires i <= |chunks|
    ensures SumRecords(chunks[..i]) <= SumRecords(chunks)
    ensures SumCompressed(chunks[..i]) <= SumCompressed(chunks)
    ensures SumUncompressed(chunks[..i]) <= SumUncompressed(chunks)
    decreases |chunks|
  {
    var n := |chunks|;
    if i == n {
      assert chunks[..n] == chunks;
    } else {
      SumsGrow(chunks[..n - 1], i);
      assert chunks[..n - 1][..i] == chunks[..i];
    }
  }

  lemma SumsStep(chunks: seq<ChunkDescriptor>, i: nat)
    requires i < |chunks|
    ensures SumRecords(chunks[..i + 1]) == SumRecords(chunks[..i]) + chunks[i].recordCount <= SumRecords(chunks)
    ensures SumCompressed(chunks[..i + 1])
            == SumCompressed(chunks[..i]) + chunks[i].compressedBytes <= SumCompressed(chunks)
    ensures SumUncompressed(chunks[..i + 1])
            == SumUncompressed(chunks[..i]) + chunks[i].uncompressedBytes <= SumUncompressed(chunks)
  {
    SumsGrow(chunks, i + 1);
    assert chunks[..i + 1][..i] == chunks[..i];
  }

  datatype Totals = Totals(records: nat, compressed: nat, uncompressed: nat)

  function SumAll(chunks: seq<ChunkDescriptor>): Totals {
    Totals(SumRecords(chunks), SumCompressed(chunks), SumUncompressed(chunks))
  }

  predicate Representable(t: Totals) {
    t.records <= U64_MAX && t.compressed <= U64_MAX && t.uncompressed <= U64_MAX
  }

  function PreviousLast(chunks: seq<ChunkDescriptor>, i: nat): Option<EntityRef>
    requires i <= |chunks|
  {
    if i == 0 then None else Some(chunks[i - 1].range.last)
  }

  /** One pass of the loop of `SnapshotManifest::verify`: the entry is checked, then added up. */
  function CheckEntry(t: Totals, chunk: ChunkDescriptor, i: nat, previousLast: Option<EntityRef>)
    : Result<Totals, BootstrapError>
  {
    var next := Totals(t.records + chunk.recordCount, t.compressed + chunk.compressedBytes,
                       t.uncompressed + chunk.uncompressedBytes);
    var fault := EntryFault(chunk, i, previousLast);
    if fault.Some? then Err(fault.value)
    else if !Representable(next) then Err(Overflow)
    else Ok(next)
  }

  /** The totals of the first `n` entries, or the fault of the first bad one. */
  function Checked(chunks: seq<ChunkDescriptor>, n: nat): Result<Totals, BootstrapError>
    requires n <= |chunks|
  {
    if n == 0 then Ok(Totals(0, 0, 0))
    else match Checked(chunks, n - 1)
      case Err(e) => Err(e)
      case Ok(t) => CheckEntry(t, chunks[n - 1], n - 1, PreviousLast(chunks, n - 1))
  }

  lemma {:induction false} CheckedDecides(chunks: seq<ChunkDescriptor>, n: nat)
    requires n <= |chunks|
    ensures Checked(chunks, n).Ok?
            <==> (forall k :: 0 <= k < n ==> EntryOk(chunks, k)) && Representable(SumAll(chunks[..n]))
    ensures Checked(chunks, n).Ok? ==> Checked(chunks, n).value == SumAll(chunks[..n])
    decreases n
  {
    if n == 0 {
    } else {
      CheckedDecides(chunks, n - 1);
      SumsStep(chunks, n - 1);
      assert EntryOk(chunks, n - 1) <==> EntryFault(chunks[n - 1], n - 1, PreviousLast(chunks, n - 1)).None?;
    }
  }

  lemma {:induction false} CheckedStops(chunks: seq<ChunkDescriptor>, n: nat)
    requires n <= |chunks| && Checked(chunks, n).Err?
    ensures Checked(chunks, |chunks|) == Checked(chunks, n)
    decreases |chunks| - n
  {
    if n == |chunks| {
    } else {
      CheckedStops(chunks, n + 1);
    }
  }

  method CheckEntries(chunks: seq<ChunkDescriptor>) returns (r: Result<Totals, BootstrapError>)
    ensures r == Checked(chunks, |chunks|)
  {
    var total := Totals(0, 0, 0);
    var previousLast: Option<EntityRef> := None;
    var i := 0;
    while i < |chunks|
      invariant 0 <= i <= |chunks|
      invariant Checked(chunks, i) == Ok(total)
      invariant previousLast == PreviousLast(chunks, i)
    {
      var chunk := chunks[i];
      var fault := EntryFault(chunk, i, previousLast);
      if fault.Some? {
        CheckedStops(chunks, i + 1);
        return Err(fault.value);
      }
      var next := Totals(total.records + chunk.recordCount, total.compressed + chunk.compressedBytes,
                         total.uncompressed + chunk.uncompressedBytes);
      if !Representable(next) {
        CheckedStops(chunks, i + 1);
        return Err(Overflow);
      }
      total := next;
      previousLast := Some(chunk.range.last);
      i := i + 1;
    }
    return Ok(total);
  }

  /** What `SnapshotManifest::verify` reports, if anything. */
  function ManifestFault(env: Env, m: Manifest): Option<BootstrapError> {
    if m.formatVersion != MANIFEST_FORMAT_VERSION then Some(UnsupportedManifestVersion)
    else match Checked(m.chunks, |m.chunks|)
      case Err(e) => Some(e)
      case Ok(t) =>
        if t != Totals(m.recordCount, m.totalCompressedBytes, m.totalUncompressedBytes) then Some(ManifestTotals)
        else match CalculateRoot(env, m)
          case None => Some(Serialization)
          case Some(root) => if root != m.rootDigest then Some(RootMismatch) else None
  }

  /** A manifest passes exactly when all its entries, its totals and its root are right. */
  lemma NoFaultMeansOk(env: Env, m: Manifest)
    ensures ManifestFault(env, m).None? <==> ManifestOk(env, m)
  {
    CheckedDecides(m.chunks, |m.chunks|);
    assert m.chunks[..|m.chunks|] == m.chunks;
  }

  method VerifyManifest(env: Env, m: Manifest) returns (r: Result<(), BootstrapError>)
    ensures r == if ManifestFault(env, m).None? then Ok(()) else Err(ManifestFault(env, m).value)
    ensures r.Ok? <==> ManifestOk(env, m)
  {
    NoFaultMeansOk(env, m);
    if m.formatVersion != MANIFEST_FORMAT_VERSION {
      return Err(UnsupportedManifestVersion);
    }
    var checked := CheckEntries(m.chunks);
    if checked.Err? {
      return Err(checked.error);
    }
    if checked.value != Totals(m.recordCount, m.totalCompressedBytes, m.totalUncompressedBytes) {
      return Err(ManifestTotals);
    }
    var root := CalculateRoot(env, m);
    if root.None? {
      return Err(Serialization);
    }
    if root.value != m.rootDigest {
      return Err(RootMismatch);
    }
    return Ok(());
  }

  // ---------------------------------------------------------------------------------------------
  // Verified decoding
  // ---------------------------------------------------------------------------------------------

  function DecodeVerified(env: Env, chunk: Chunk, expected: ChunkDescriptor, maxBytes: nat)
    : Result<seq<Record>, BootstrapError>
  {
    if chunk.descriptor != expected then Err(ChunkIdentityMismatch)
    else if |chunk.bytes| != expected.uncompressedBytes || |chunk.bytes| > maxBytes then Err(ChunkByteLimit)
    else if env.hash(chunk.bytes) != expected.digest then Err(ChunkDigestMismatch)
    else match env.decode(chunk.bytes)
      case None => Err(Serialization)
      case Some(records) =>
        if |records| > U64_MAX then Err(Overflow)
        else if |records| != expected.recordCount || |records| == 0 then Err(ChunkRecordCount)
        else if records[0].entity != expected.range.first || records[|records| - 1].entity != expected.range.last then
          Err(EntityOrder)
        else if !AdjacentIncreasing(records) then Err(EntityOrder)
        else Ok(records)
  }

  /** `parts` is what the chunks of a manifest decode to, one by one. */
  ghost predicate DecodesTo(env: Env, m: Manifest, chunks: seq<Chunk>, maxBytes: nat, parts: seq<seq<Record>>) {
    && |chunks| == |m.chunks| == |parts|
    && forall i :: 0 <= i < |chunks| ==> DecodeVerified(env, chunks[i], m.chunks[i], maxBytes) == Ok(parts[i])
  }

  lemma FlattenIncreasing(a: seq<Record>, b: seq<Record>)
    requires StrictlyIncreasing(a) && AdjacentIncreasing(b)
    requires a != [] && b != [] ==> Lt(a[|a| - 1].entity, b[0].entity)
    ensures StrictlyIncreasing(a + b)
  {
    forall i, j | 0 <= i < j < |a + b| ensures Lt((a + b)[i].entity, (a + b)[j].entity) {
      if i >= |a| {
        AdjacentIsEnough(b, i - |a|, j - |a|);
      } else if j >= |a| {
        if j > |a| {
          AdjacentIsEnough(b, 0, j - |a|);
        }
      }
    }
  }

  /** `part` is a record list that descriptor `d` describes. */
  predicate Describes(d: ChunkDescriptor, part: seq<Record>) {
    && |part| == d.recordCount && part != []
    && part[0].entity == d.range.first && part[|part| - 1].entity == d.range.last
    && AdjacentIncreasing(part)
  }

  lemma {:induction false} PartsAreOrdered(chunks: seq<ChunkDescriptor>, parts: seq<seq<Record>>)
    requires EntriesOk(chunks) && |parts| == |chunks|
    requires forall i :: 0 <= i < |chunks| ==> Describes(chunks[i], parts[i])
    ensures var all := Flatten(parts);
            && StrictlyIncreasing(all)
            && |all| == SumRecords(chunks)
            && (parts != [] ==> all != [] && all[|all| - 1].entity == chunks[|chunks| - 1].range.last)
    decreases |parts|
  {
    if parts == [] {
    } else {
      var n := |parts| - 1;
      forall i | 0 <= i < n ensures EntryOk(chunks[..n], i) {
        assert EntryOk(chunks, i);
      }
      PartsAreOrdered(chunks[..n], parts[..n]);
      assert EntryOk(chunks, n);
      FlattenIncreasing(Flatten(parts[..n]), parts[n]);
    }
  }

  /**
   * Any accepted snapshot is globally well ordered: for an arbitrary manifest that verifies and
   * chunks that each decode against it, the concatenated records are strictly increasing by entity
   * (so no entity repeats) and number exactly the manifest's record count.
   */
  lemma AcceptedSnapshotIsOrdered(
    env: Env, m: Manifest, chunks: seq<Chunk>, maxBytes: nat, parts: seq<seq<Record>>)
    requires ManifestOk(env, m) && DecodesTo(env, m, chunks, maxBytes, parts)
    ensures StrictlyIncreasing(Flatten(parts)) && |Flatten(parts)| == m.recordCount
  {
    forall i | 0 <= i < |parts| ensures Describes(m.chunks[i], parts[i]) {
      assert DecodeVerified(env, chunks[i], m.chunks[i], maxBytes) == Ok(parts[i]);
    }
    PartsAreOrdered(m.chunks, parts);
  }
}
