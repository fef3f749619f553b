/** The mutable store and the two transfer loops, proved against the step functions of `Blob`. */
module BlobObject {
  import opened Base
  import opened Blob

  class InMemoryBlobStore {
    const hash: Hash
    const limits: Limits
    var chunks: map<Digest, Bytes>
    var published: set<Digest>
    var blobs: map<Digest, Bytes>

    function Value(): Store
      reads this
    {
      Store(chunks, published, blobs)
    }

    constructor (hash: Hash, maxChunkBytes: nat, maxBlobBytes: nat)
      ensures this.hash == hash && limits == Limits(maxChunkBytes, maxBlobBytes) && Value() == EMPTY
    {
      this.hash := hash;
      limits := Limits(maxChunkBytes, maxBlobBytes);
      chunks := map[];
      published := {};
      blobs := map[];
    }

    /** `InMemoryBlobStore::new`: refuses a zero chunk limit or a blob limit below one chunk. */
    static method Create(hash: Hash, maxChunkBytes: nat, maxBlobBytes: nat)
      returns (r: Result<InMemoryBlobStore, BlobError>)
      ensures r == Err(InvalidChunkSize) <==> maxChunkBytes == 0
      ensures r == Err(LimitExceeded) <==> maxBlobBytes < maxChunkBytes
      ensures maxChunkBytes != 0 && maxBlobBytes >= maxChunkBytes ==>
                && r.Ok? && fresh(r.value) && r.value.hash == hash
                && r.value.limits == Limits(maxChunkBytes, maxBlobBytes) && r.value.Value() == EMPTY
    {
      if maxChunkBytes == 0 {
        return Err(InvalidChunkSize);
      }
      if maxBlobBytes < maxChunkBytes {
        return Err(LimitExceeded);
      }
      var store := new InMemoryBlobStore(hash, maxChunkBytes, maxBlobBytes);
      return Ok(store);
    }

    method PutChunkBytes(digest: Digest, bytes: Bytes) returns (r: Result<(), BlobError>)
      modifies this`chunks
      ensures (Value(), r) == PutChunk(hash, limits, old(Value()), digest, bytes)
    {
      if |bytes| > limits.maxChunkBytes {
        return Err(LimitExceeded);
      }
      if hash(bytes) != digest {
        return Err(DigestMismatch);
      }
      if digest !in chunks {
        chunks := chunks[digest := bytes];
      }
      return Ok(());
    }

    /** All chunks of the manifest are put together and checked before anything becomes visible. */
    method Commit(m: BlobManifest) returns (r: Result<(), BlobError>)
      modifies this`published, this`blobs
      ensures (Value(), r) == Blob.Commit(hash, limits, old(Value()), m)
    {
      var fault := LayoutFault(limits, m);
      if fault.Some? {
        return Err(fault.value);
      }
      if m.blob.digest in blobs {
        return Ok(());
      }
      var complete: Bytes := [];
      for index := 0 to |m.chunks|
        invariant Assemble(hash, old(Value()), m, index) == Ok(complete)
        invariant published == old(published) && blobs == old(blobs)
      {
        var digest := m.chunks[index];
        ghost var step := Assemble(hash, old(Value()), m, index + 1);
        if digest !in chunks {
          assert step == Err(MissingChunk);
          AssembleStops(hash, Value(), m, index + 1);
          return Err(MissingChunk);
        }
        if hash(chunks[digest]) != digest {
          assert step == Err(DigestMismatch);
          AssembleStops(hash, Value(), m, index + 1);
          return Err(DigestMismatch);
        }
        if |chunks[digest]| != ExpectedLength(m, index) {
          assert step == Err(InvalidManifest);
          AssembleStops(hash, Value(), m, index + 1);
          return Err(InvalidManifest);
        }
        complete := complete + chunks[digest];
      }
      if !Verifies(hash, m.blob, complete) {
        return Err(DigestMismatch);
      }
      published := published + (set d | d in m.chunks);
      blobs := blobs[m.blob.digest := complete];
      return Ok(());
    }
  }

  lemma {:induction false} AssembleStops(hash: Hash, s: Store, m: BlobManifest, n: nat)
    requires n <= |m.chunks| && Assemble(hash, s, m, n).Err?
    ensures Assemble(hash, s, m, |m.chunks|) == Assemble(hash, s, m, n)
    decreases |m.chunks| - n
  {
    if n == |m.chunks| {
    } else {
      AssembleStops(hash, s, m, n + 1);
    }
  }

  /** The steps of other writers that fall between two steps of this one. */
  method OtherWriters(store: InMemoryBlobStore, ops: seq<StoreOp>)
    modifies store
    ensures store.Value() == ApplyAll(store.hash, store.limits, old(store.Value()), ops)
  {
    for i := 0 to |ops|
      invariant store.Value() == ApplyAll(store.hash, store.limits, old(store.Value()), ops[..i])
    {
      assert ops[..i + 1][..i] == ops[..i];
      match ops[i]
      case Put(digest, bytes) => var _ := store.PutChunkBytes(digest, bytes);
      case Publish(m) => var _ := store.Commit(m);
    }
    assert ops[..|ops|] == ops;
  }

  /** Uploads one bounded piece. */
  method UploadOneChunk(
    store: InMemoryBlobStore, p: UploadParams, bytes: Bytes, chunks: seq<Digest>, content: Bytes, total: nat)
    returns (r: Result<(seq<Digest>, Bytes, nat), BlobError>)
    requires p.hash == store.hash && p.limits == store.limits
    modifies store
    ensures forall pending ::
              var (s, spec) := UploadOne(p, Upload(old(store.Value()), pending, chunks, content, total), bytes);
              && store.Value() == s
              && match spec
                 case Err(e) => r == Err(e)
                 case Ok(u) => r == Ok((u.chunks, u.content, u.total)) && u.store == s && u.pending == pending
  {
    var digest := p.hash(bytes);
    if |bytes| > U64_MAX || total + |bytes| > U64_MAX {
      return Err(LimitExceeded);
    }
    OtherWriters(store, p.others(|chunks|));
    var put := store.PutChunkBytes(digest, bytes);
    if put.Err? {
      return Err(put.error);
    }
    return Ok((chunks + [digest], content + bytes, total + |bytes|));
  }

  /** `upload_stream`: one piece in flight, the previous one uploaded, then one atomic commit. */
  method RunUpload(store: InMemoryBlobStore, p: UploadParams, source: seq<Result<Bytes, BlobError>>)
    returns (r: Result<BlobManifest, BlobError>)
    requires p.hash == store.hash && p.limits == store.limits
    modifies store
    ensures (store.Value(), r) == UploadStream(p, old(store.Value()), source)
  {
    if p.chunkSize == 0 || p.maxBlobBytes == 0 || p.maxChunks == 0 {
      return Err(InvalidChunkSize);
    }
    ghost var start := Consume(p, Begin(store.Value()), source);
    var pending: Option<Bytes> := None;
    var chunks: seq<Digest> := [];
    var content: Bytes := [];
    var total: nat := 0;
    var i := 0;
    while i < |source|
      invariant 0 <= i <= |source|
      invariant start == Consume(p, Upload(store.Value(), pending, chunks, content, total), source[i..])
    {
      assert source[i..][0] == source[i] && source[i..][1..] == source[i + 1..];
      if source[i].Err? {
        return Err(source[i].error);
      }
      var next := source[i].value;
      if next == [] || |next| > p.chunkSize {
        return Err(InvalidChunkLayout);
      }
      if |chunks| + (if pending.Some? then 1 else 0) == p.maxChunks {
        return Err(ChunkLimit);
      }
      var previous := pending;
      pending := Some(next);
      if previous.Some? {
        if |previous.value| != p.chunkSize {
          return Err(InvalidChunkLayout);
        }
        var uploaded := UploadOneChunk(store, p, previous.value, chunks, content, total);
        if uploaded.Err? {
          return Err(uploaded.error);
        }
        chunks, content, total := uploaded.value.0, uploaded.value.1, uploaded.value.2;
        if total > p.maxBlobBytes {
          return Err(LimitExceeded);
        }
      }
      i := i + 1;
    }
    assert source[i..] == [];
    if pending.Some? {
      var uploaded := UploadOneChunk(store, p, pending.value, chunks, content, total);
      if uploaded.Err? {
        return Err(uploaded.error);
      }
      chunks, content, total := uploaded.value.0, uploaded.value.1, uploaded.value.2;
    }
    if total > p.maxBlobBytes || |chunks| > p.maxChunks {
      return Err(LimitExceeded);
    }
    var m := BlobManifest(BlobRef(p.hash(content), total), p.chunkSize, chunks);
    OtherWriters(store, p.others(|chunks|));
    var committed := store.Commit(m);
    if committed.Err? {
      return Err(committed.error);
    }
    return Ok(m);
  }

  /** `download_stream`: fetches, checks and hands over one chunk at a time. */
  method RunDownload(store: InMemoryBlobStore, d: DownloadParams, m: BlobManifest)
    returns (written: seq<Bytes>, r: Result<(), BlobError>)
    requires d.hash == store.hash && d.limits == store.limits
    modifies store
    ensures (store.Value(), written, r) == DownloadStream(d, old(store.Value()), m)
  {
    written := [];
    if m.chunkSize == 0 || m.chunkSize > d.maxChunkBytes || |m.chunks| > d.maxChunks {
      return written, Err(LimitExceeded);
    }
    var expected := ExpectedChunks(m.blob.length, m.chunkSize);
    if |m.chunks| != expected {
      return written, Err(InvalidManifest);
    }
    var content: Bytes := [];
    var total := 0;
    var index := 0;
    while index < |m.chunks|
      invariant 0 <= index <= |m.chunks|
      invariant content == Flatten(written) && total == |content|
      invariant Fetch(d, old(store.Value()), m, 0, []) == Fetch(d, store.Value(), m, index, written)
    {
      OtherWriters(store, d.others(index));
      var found := GetCommittedChunk(store.Value(), m.chunks[index]);
      if found.None? {
        return written, Err(MissingChunk);
      }
      if found.value == [] || |found.value| > m.chunkSize || store.hash(found.value) != m.chunks[index] {
        return written, Err(DigestMismatch);
      }
      if index + 1 != expected && |found.value| != m.chunkSize {
        return written, Err(InvalidChunkLayout);
      }
      if total + |found.value| > U64_MAX {
        return written, Err(LimitExceeded);
      }
      if index > U32_MAX {
        return written, Err(ChunkLimit);
      }
      var failed := d.sink(written + [found.value]);
      if failed.Some? {
        return written, Err(failed.value);
      }
      assert (written + [found.value])[..|written|] == written;
      content, total := content + found.value, total + |found.value|;
      written := written + [found.value];
      index := index + 1;
    }
    if total != m.blob.length || store.hash(content) != m.blob.digest {
      return written, Err(DigestMismatch);
    }
    return written, Ok(());
  }
}
