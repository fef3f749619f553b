/**
 * Content-addressed blobs (`crates/aequora-blob/src/lib.rs`): manifests, the in-memory store, and
 * the streamed upload and download as step functions.
 */
module Blob {
  import opened Base

  type Digest = Bytes

  /** BLAKE3, kept abstract. Feeding a hasher piece by piece hashes the concatenation. */
  type Hash = Bytes -> Digest

  datatype BlobRef = BlobRef(digest: Digest, length: nat)

  datatype BlobManifest = BlobManifest(blob: BlobRef, chunkSize: u32, chunks: seq<Digest>)

  datatype BlobError =
    | InvalidChunkSize | DigestMismatch | MissingChunk | InvalidManifest | LimitExceeded
    | Storage | ChunkLimit | InvalidChunkLayout

  function Digests(hash: Hash, pieces: seq<Bytes>): seq<Digest> {
    seq(|pieces|, i requires 0 <= i < |pieces| => hash(pieces[i]))
  }

  /** `slice::chunks`: pieces of `n` bytes, the last one possibly shorter. */
  function Split(bytes: Bytes, n: nat): seq<Bytes>
    requires n > 0
  {
    if |bytes| <= n then (if bytes == [] then [] else [bytes]) else [bytes[..n]] + Split(bytes[n..], n)
  }

  function RefForBytes(hash: Hash, bytes: Bytes): BlobRef {
    BlobRef(hash(bytes), Min(|bytes|, U64_MAX))
  }

  /** `BlobManifest::for_bytes`: the simple definition over complete content. */
  function ForBytes(hash: Hash, bytes: Bytes, chunkSize: u32): Result<BlobManifest, BlobError> {
    if chunkSize == 0 then Err(InvalidChunkSize)
    else Ok(BlobManifest(RefForBytes(hash, bytes), chunkSize, Digests(hash, Split(bytes, chunkSize))))
  }

  predicate Verifies(hash: Hash, blob: BlobRef, bytes: Bytes) {
    blob.length == |bytes| && hash(bytes) == blob.digest
  }

  // ---------------------------------------------------------------------------------------------
  // The in-memory store
  // ---------------------------------------------------------------------------------------------

  datatype Limits = Limits(maxChunkBytes: nat, maxBlobBytes: nat)

  datatype Store = Store(chunks: map<Digest, Bytes>, published: set<Digest>, blobs: map<Digest, Bytes>)

  const EMPTY := Store(map[], {}, map[])

  function PutChunk(hash: Hash, limits: Limits, s: Store, digest: Digest, bytes: Bytes)
    : (Store, Result<(), BlobError>)
  {
    if |bytes| > limits.maxChunkBytes then (s, Err(LimitExceeded))
    else if hash(bytes) != digest then (s, Err(DigestMismatch))
    else if digest in s.chunks then (s, Ok(()))
    else (s.(chunks := s.chunks[digest := bytes]), Ok(()))
  }

  function ExpectedChunks(length: nat, chunkSize: nat): nat
    requires chunkSize > 0
  {
    if length == 0 then 0 else DivCeil(length, chunkSize)
  }

  function ExpectedLength(m: BlobManifest, index: nat): nat {
    if index + 1 == |m.chunks| then SatSub(m.blob.length, index * m.chunkSize) else m.chunkSize
  }

  /** The first `n` stored chunks of a manifest, checked one by one. */
  function Assemble(hash: Hash, s: Store, m: BlobManifest, n: nat): Result<Bytes, BlobError>
    requires n <= |m.chunks|
  {
    if n == 0 then Ok([])
    else match Assemble(hash, s, m, n - 1)
      case Err(e) => Err(e)
      case Ok(front) =>
        var digest := m.chunks[n - 1];
        if digest !in s.chunks then Err(MissingChunk)
        else if hash(s.chunks[digest]) != digest then Err(DigestMismatch)
        else if |s.chunks[digest]| != ExpectedLength(m, n - 1) then Err(InvalidManifest)
        else Ok(front + s.chunks[digest])
  }

  function LayoutFault(limits: Limits, m: BlobManifest): Option<BlobError> {
    if m.blob.length > limits.maxBlobBytes || m.chunkSize == 0 then Some(LimitExceeded)
    else if m.chunkSize > limits.maxChunkBytes then Some(LimitExceeded)
    else if |m.chunks| != ExpectedChunks(m.blob.length, m.chunkSize) then Some(InvalidManifest)
    else None
  }

  function Commit(hash: Hash, limits: Limits, s: Store, m: BlobManifest): (Store, Result<(), BlobError>) {
    if LayoutFault(limits, m).Some? then (s, Err(LayoutFault(limits, m).value))
    else if m.blob.digest in s.blobs then (s, Ok(()))
    else match Assemble(hash, s, m, |m.chunks|)
      case Err(e) => (s, Err(e))
      case Ok(complete) =>
        if !Verifies(hash, m.blob, complete) then (s, Err(DigestMismatch))
        else (Store(s.chunks, s.published + (set d | d in m.chunks), s.blobs[m.blob.digest := complete]), Ok(()))
  }

  /** What any user of the store may do to it. */
  datatype StoreOp = Put(digest: Digest, bytes: Bytes) | Publish(m: BlobManifest)

  function Apply(hash: Hash, limits: Limits, s: Store, op: StoreOp): Store {
    match op
    case Put(digest, bytes) => PutChunk(hash, limits, s, digest, bytes).0
    case Publish(m) => Commit(hash, limits, s, m).0
  }

  function ApplyAll(hash: Hash, limits: Limits, s: Store, ops: seq<StoreOp>): Store {
    if ops == [] then s else Apply(hash, limits, ApplyAll(hash, limits, s, ops[..|ops| - 1]), ops[|ops| - 1])
  }

  function Get(hash: Hash, s: Store, blob: BlobRef): Option<Bytes> {
    if blob.digest in s.blobs && Verifies(hash, blob, s.blobs[blob.digest]) then Some(s.blobs[blob.digest]) else None
  }

  function GetCommittedChunk(s: Store, digest: Digest): Option<Bytes> {
    if digest in s.published && digest in s.chunks then Some(s.chunks[digest]) else None
  }

  // ---------------------------------------------------------------------------------------------
  // Streamed upload
  // ---------------------------------------------------------------------------------------------

  /** `others(k)` is what other writers do to the shared store just before this upload uses it for the `k`-th time. */
  datatype UploadParams = UploadParams(
    hash: Hash, limits: Limits, chunkSize: u32, maxBlobBytes: u64, maxChunks: usize, others: nat -> seq<StoreOp>)

  function Meanwhile(p: UploadParams, s: Store, k: nat): Store {
    ApplyAll(p.hash, p.limits, s, p.others(k))
  }

  /** The local variables of the upload loop; `content` is what the running hasher has absorbed. */
  datatype Upload = Upload(store: Store, pending: Option<Bytes>, chunks: seq<Digest>, content: Bytes, total: nat)

  function Begin(s: Store): Upload {
    Upload(s, None, [], [], 0)
  }

  function UploadOne(p: UploadParams, u: Upload, bytes: Bytes): (Store, Result<Upload, BlobError>) {
    var digest := p.hash(bytes);
    if |bytes| > U64_MAX || u.total + |bytes| > U64_MAX then (u.store, Err(LimitExceeded))
    else
      var (store, put) := PutChunk(p.hash, p.limits, Meanwhile(p, u.store, |u.chunks|), digest, bytes);
      match put
      case Err(e) => (store, Err(e))
      case Ok(_) => (store, Ok(Upload(store, u.pending, u.chunks + [digest], u.content + bytes, u.total + |bytes|)))
  }

  /** One pass of the loop: hold the new piece back and upload the one held before. */
  function Take(p: UploadParams, u: Upload, next: Bytes): (Store, Result<Upload, BlobError>) {
    if next == [] || |next| > p.chunkSize then (u.store, Err(InvalidChunkLayout))
    else if |u.chunks| + (if u.pending.Some? then 1 else 0) == p.maxChunks then (u.store, Err(ChunkLimit))
    else match u.pending
      case None => (u.store, Ok(u.(pending := Some(next))))
      case Some(previous) =>
        if |previous| != p.chunkSize then (u.store, Err(InvalidChunkLayout))
        else
          var (store, uploaded) := UploadOne(p, u.(pending := Some(next)), previous);
          match uploaded
          case Err(e) => (store, Err(e))
          case Ok(u') => if u'.total > p.maxBlobBytes then (store, Err(LimitExceeded)) else (store, Ok(u'))
  }

  function Consume(p: UploadParams, u: Upload, source: seq<Result<Bytes, BlobError>>)
    : (Store, Result<Upload, BlobError>)
    decreases |source|
  {
    if source == [] then (u.store, Ok(u))
    else match source[0]
      case Err(e) => (u.store, Err(e))
      case Ok(next) =>
        var (store, taken) := Take(p, u, next);
        match taken
        case Err(e) => (store, Err(e))
        case Ok(u') => Consume(p, u', source[1..])
  }

  /** After the loop: upload the piece that was held back, if any. */
  function Flush(p: UploadParams, u: Upload): (Store, Result<Upload, BlobError>) {
    if u.pending.None? then (u.store, Ok(u)) else UploadOne(p, u, u.pending.value)
  }

  /** Then publish. */
  function Conclude(p: UploadParams, u: Upload): (Store, Result<BlobManifest, BlobError>) {
    var (store, flushed) := Flush(p, u);
    match flushed
    case Err(e) => (store, Err(e))
    case Ok(u') =>
      if u'.total > p.maxBlobBytes || |u'.chunks| > p.maxChunks then (store, Err(LimitExceeded))
      else
        var m := BlobManifest(BlobRef(p.hash(u'.content), u'.total), p.chunkSize, u'.chunks);
        var (committed, r) := Commit(p.hash, p.limits, Meanwhile(p, store, |u'.chunks|), m);
        match r
        case Err(e) => (committed, Err(e))
        case Ok(_) => (committed, Ok(m))
  }

  function UploadStream(p: UploadParams, s: Store, source: seq<Result<Bytes, BlobError>>)
    : (Store, Result<BlobManifest, BlobError>)
  {
    if p.chunkSize == 0 || p.maxBlobBytes == 0 || p.maxChunks == 0 then (s, Err(InvalidChunkSize))
    else
      var (store, consumed) := Consume(p, Begin(s), source);
      match consumed
      case Err(e) => (store, Err(e))
      case Ok(u) => Conclude(p, u)
  }

  // ---------------------------------------------------------------------------------------------
  // Streamed download
  // ---------------------------------------------------------------------------------------------

  /** Receives the pieces written so far and may fail on the last one. */
  type Sink = seq<Bytes> -> Option<BlobError>

  function ChunkFault(hash: Hash, s: Store, m: BlobManifest, index: nat, expected: nat): Option<BlobError>
    requires index < |m.chunks|
  {
    var found := GetCommittedChunk(s, m.chunks[index]);
    if found.None? then Some(MissingChunk)
    else if found.value == [] || |found.value| > m.chunkSize || hash(found.value) != m.chunks[index] then
      Some(DigestMismatch)
    else if index + 1 != expected && |found.value| != m.chunkSize then Some(InvalidChunkLayout)
    else None
  }

  /** `others(k)` is what other writers do to the store just before this download reads it for the `k`-th time. */
  datatype DownloadParams = DownloadParams(
    hash: Hash, limits: Limits, maxChunkBytes: usize, maxChunks: usize, sink: Sink, others: nat -> seq<StoreOp>)

  /** The store left behind, the pieces written, and the fault that stops the transfer, if any. */
  function Fetch(d: DownloadParams, s: Store, m: BlobManifest, index: nat, written: seq<Bytes>)
    : (Store, seq<Bytes>, Result<(), BlobError>)
    requires index <= |m.chunks|
    decreases |m.chunks| - index
  {
    if index == |m.chunks| then
      var content := Flatten(written);
      (s, written,
       if |content| != m.blob.length || d.hash(content) != m.blob.digest then Err(DigestMismatch) else Ok(()))
    else
      var now := ApplyAll(d.hash, d.limits, s, d.others(index));
      var fault := ChunkFault(d.hash, now, m, index, |m.chunks|);
      if fault.Some? then (now, written, Err(fault.value))
      else
        var piece := now.chunks[m.chunks[index]];
        if |Flatten(written)| + |piece| > U64_MAX then (now, written, Err(LimitExceeded))
        else if index > U32_MAX then (now, written, Err(ChunkLimit))
        else if d.sink(written + [piece]).Some? then (now, written, Err(d.sink(written + [piece]).value))
        else Fetch(d, now, m, index + 1, written + [piece])
  }

  function DownloadStream(d: DownloadParams, s: Store, m: BlobManifest): (Store, seq<Bytes>, Result<(), BlobError>) {
    if m.chunkSize == 0 || m.chunkSize > d.maxChunkBytes || |m.chunks| > d.maxChunks then (s, [], Err(LimitExceeded))
    else if |m.chunks| != ExpectedChunks(m.blob.length, m.chunkSize) then (s, [], Err(InvalidManifest))
    else Fetch(d, s, m, 0, [])
  }
}
