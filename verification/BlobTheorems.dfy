/**
 * The streamed transfer agrees with the simple whole-content definition
 * (`crates/aequora-blob/src/lib.rs`). Collision-freedom of the hash is a hypothesis about the
 * finitely many byte strings in play, never about all byte strings.
 */
module BlobTheorems {
  import opened Base
  import opened Blob

  ghost predicate NoCollision(hash: Hash, strings: set<Bytes>) {
    forall x, y :: x in strings && y in strings && hash(x) == hash(y) ==> x == y
  }

  /** Every stored string is filed under its own digest, and only stored chunks are published. */
  ghost predicate StoreOk(hash: Hash, s: Store) {
    && (forall d :: d in s.chunks ==> hash(s.chunks[d]) == d)
    && (forall d :: d in s.blobs ==> hash(s.blobs[d]) == d)
    && s.published <= s.chunks.Keys
  }

  // ---------------------------------------------------------------------------------------------
  // What every operation on the store keeps
  // ---------------------------------------------------------------------------------------------

  /** Nothing that is stored, published or readable is ever replaced or removed. */
  ghost predicate Grows(before: Store, after: Store) {
    && before.published <= after.published
    && (forall d :: d in before.chunks ==> d in after.chunks && after.chunks[d] == before.chunks[d])
    && (forall d :: d in before.blobs ==> d in after.blobs && after.blobs[d] == before.blobs[d])
  }

  /** Staging a chunk keeps the store well filed and makes nothing readable. */
  lemma StagingIsInvisible(hash: Hash, limits: Limits, s: Store, digest: Digest, bytes: Bytes, blob: BlobRef, d: Digest)
    requires StoreOk(hash, s)
    ensures var after := PutChunk(hash, limits, s, digest, bytes).0;
            && StoreOk(hash, after) && Grows(s, after)
            && Get(hash, after, blob) == Get(hash, s, blob)
            && GetCommittedChunk(after, d) == GetCommittedChunk(s, d)
  {
  }

  lemma {:induction false} AssembleUsesChunks(hash: Hash, s: Store, m: BlobManifest, n: nat, i: nat)
    requires n <= |m.chunks| && i < n && Assemble(hash, s, m, n).Ok?
    ensures m.chunks[i] in s.chunks
    decreases n
  {
    if i < n - 1 {
      AssembleUsesChunks(hash, s, m, n - 1, i);
    }
  }

  /** A commit keeps the store well filed, and a failed one changes nothing. */
  lemma CommitKeepsStoreOk(hash: Hash, limits: Limits, s: Store, m: BlobManifest)
    requires StoreOk(hash, s)
    ensures StoreOk(hash, Commit(hash, limits, s, m).0) && Grows(s, Commit(hash, limits, s, m).0)
    ensures Commit(hash, limits, s, m).1.Err? ==> Commit(hash, limits, s, m).0 == s
  {
    var (after, r) := Commit(hash, limits, s, m);
    if r.Ok? && after != s {
      forall d | d in m.chunks ensures d in s.chunks {
        var i :| 0 <= i < |m.chunks| && m.chunks[i] == d;
        AssembleUsesChunks(hash, s, m, |m.chunks|, i);
      }
    }
  }

  lemma GrowsOn(a: Store, b: Store, c: Store)
    requires Grows(a, b) && Grows(b, c)
    ensures Grows(a, c)
  {
  }

  lemma {:induction false} OperationsKeep(hash: Hash, limits: Limits, s: Store, ops: seq<StoreOp>)
    requires StoreOk(hash, s)
    ensures StoreOk(hash, ApplyAll(hash, limits, s, ops)) && Grows(s, ApplyAll(hash, limits, s, ops))
  {
    if ops == [] {
    } else {
      var before := ApplyAll(hash, limits, s, ops[..|ops| - 1]);
      OperationsKeep(hash, limits, s, ops[..|ops| - 1]);
      match ops[|ops| - 1]
      case Put(digest, bytes) => StagingIsInvisible(hash, limits, before, digest, bytes, BlobRef(digest, 0), digest);
      case Publish(m) => CommitKeepsStoreOk(hash, limits, before, m);
      GrowsOn(s, before, ApplyAll(hash, limits, s, ops));
    }
  }

  /** In every state the store can reach, strings are filed under their digests. */
  lemma ReachableStoresAreOk(hash: Hash, limits: Limits, ops: seq<StoreOp>)
    ensures StoreOk(hash, ApplyAll(hash, limits, EMPTY, ops))
  {
    OperationsKeep(hash, limits, EMPTY, ops);
  }

  // ---------------------------------------------------------------------------------------------
  // Layout of a successful upload
  // ---------------------------------------------------------------------------------------------

  /** Every piece is full except possibly the last, and none is empty. */
  ghost predicate LaidOut(pieces: seq<Bytes>, chunkSize: nat) {
    && (forall i :: 0 <= i < |pieces| ==> 0 < |pieces[i]| <= chunkSize)
    && (forall i :: 0 <= i < |pieces| - 1 ==> |pieces[i]| == chunkSize)
  }

  lemma {:induction false} ConcatFront(first: Bytes, rest: seq<Bytes>)
    ensures Flatten([first] + rest) == first + Flatten(rest)
  {
    var all := [first] + rest;
    if rest == [] {
      assert all[..0] == [];
    } else {
      var n := |rest| - 1;
      var front, last := rest[..n], rest[n];
      assert all[..|rest|] == [first] + front;
      ConcatFront(first, front);
      assert (first + Flatten(front)) + last == first + (Flatten(front) + last);
    }
  }

  /** Splitting the concatenation gives back the pieces. */
  lemma {:induction false} SplitUndoesFlatten(pieces: seq<Bytes>, chunkSize: nat)
    requires chunkSize > 0 && LaidOut(pieces, chunkSize)
    ensures Split(Flatten(pieces), chunkSize) == pieces
    decreases |pieces|
  {
    if pieces == [] {
    } else {
      var first, rest := pieces[0], pieces[1..];
      assert pieces == [first] + rest;
      ConcatFront(first, rest);
      assert LaidOut(rest, chunkSize);
      SplitUndoesFlatten(rest, chunkSize);
      if rest == [] {
        assert Flatten(rest) == [] && first + [] == first;
      } else {
        ConcatFront(rest[0], rest[1..]);
        assert rest == [rest[0]] + rest[1..];
        assert Flatten(pieces)[..chunkSize] == first && Flatten(pieces)[chunkSize..] == Flatten(rest);
      }
    }
  }

  lemma {:induction false} LaidOutLength(pieces: seq<Bytes>, chunkSize: nat)
    requires chunkSize > 0 && LaidOut(pieces, chunkSize)
    ensures pieces != [] ==>
              |Flatten(pieces)| == (|pieces| - 1) * chunkSize + |pieces[|pieces| - 1]|
    ensures |pieces| == ExpectedChunks(|Flatten(pieces)|, chunkSize)
  {
    if pieces == [] {
    } else {
      var n := |pieces| - 1;
      LaidOutLength(pieces[..n], chunkSize);
      if n > 0 {
        assert |pieces[..n][n - 1]| == chunkSize;
        assert (n - 1) * chunkSize + chunkSize == n * chunkSize;
      }
      var last := |pieces[n]|;
      assert |Flatten(pieces)| == n * chunkSize + last;
      CeilOfLayout(n, chunkSize, last);
    }
  }

  lemma CeilOfLayout(n: nat, chunkSize: nat, last: nat)
    requires 0 < last <= chunkSize
    ensures DivCeil(n * chunkSize + last, chunkSize) == n + 1
  {
    DivCeilIsLeast(n * chunkSize + last, chunkSize, n);
    DivCeilIsLeast(n * chunkSize + last, chunkSize, n + 1);
    assert (n + 1) * chunkSize == n * chunkSize + chunkSize;
  }

  // ---------------------------------------------------------------------------------------------
  // The upload loop
  // ---------------------------------------------------------------------------------------------

  function Pieces(source: seq<Result<Bytes, BlobError>>): seq<Bytes>
    requires forall i :: 0 <= i < |source| ==> source[i].Ok?
  {
    seq(|source|, i requires 0 <= i < |source| => source[i].value)
  }

  ghost predicate AllOk(source: seq<Result<Bytes, BlobError>>) {
    forall i :: 0 <= i < |source| ==> source[i].Ok?
  }

  ghost predicate Staged(hash: Hash, s: Store, pieces: seq<Bytes>) {
    forall i :: 0 <= i < |pieces| ==> hash(pieces[i]) in s.chunks
  }

  /** No other writer touches the store during the upload. */
  ghost predicate Quiet(p: UploadParams) {
    forall k :: p.others(k) == []
  }

  ghost predicate SameVisible(a: Store, b: Store) {
    a.published == b.published && a.blobs == b.blobs
  }

  /** The pieces uploaded so far and the accumulators agree. */
  ghost predicate Accumulated(p: UploadParams, before: Store, u: Upload, done: seq<Bytes>) {
    && u.chunks == Digests(p.hash, done) && u.content == Flatten(done) && u.total == |u.content| <= U64_MAX
    && StoreOk(p.hash, u.store) && Grows(before, u.store) && Staged(p.hash, u.store, done)
    && (Quiet(p) ==> SameVisible(before, u.store))
  }

  ghost predicate UploadInvariant(p: UploadParams, before: Store, u: Upload, taken: seq<Bytes>) {
    match u.pending
    case None => taken == [] && Accumulated(p, before, u, [])
    case Some(last) =>
      && taken != [] && last == taken[|taken| - 1] && 0 < |last| <= p.chunkSize
      && Accumulated(p, before, u, taken[..|taken| - 1])
      && (forall i :: 0 <= i < |taken| - 1 ==> |taken[i]| == p.chunkSize)
  }

  lemma UploadOneKeeps(p: UploadParams, before: Store, u: Upload, done: seq<Bytes>, bytes: Bytes)
    requires Accumulated(p, before, u, done) && UploadOne(p, u, bytes).1.Ok?
    ensures Accumulated(p, before, UploadOne(p, u, bytes).1.value, done + [bytes])
    ensures UploadOne(p, u, bytes).1.value.pending == u.pending
  {
    assert (done + [bytes])[..|done|] == done;
    var meanwhile := Meanwhile(p, u.store, |u.chunks|);
    OperationsKeep(p.hash, p.limits, u.store, p.others(|u.chunks|));
    StagingIsInvisible(p.hash, p.limits, meanwhile, p.hash(bytes), bytes, BlobRef([], 0), []);
    GrowsOn(before, u.store, meanwhile);
    GrowsOn(before, meanwhile, UploadOne(p, u, bytes).0);
  }

  lemma TakeKeeps(p: UploadParams, before: Store, u: Upload, taken: seq<Bytes>, next: Bytes)
    requires p.chunkSize > 0 && UploadInvariant(p, before, u, taken) && Take(p, u, next).1.Ok?
    ensures UploadInvariant(p, before, Take(p, u, next).1.value, taken + [next])
  {
    var taken' := taken + [next];
    assert taken'[..|taken|] == taken;
    if u.pending.Some? {
      assert taken == taken[..|taken| - 1] + [u.pending.value];
      UploadOneKeeps(p, before, u.(pending := Some(next)), taken[..|taken| - 1], u.pending.value);
    }
  }

  lemma PiecesFront(source: seq<Result<Bytes, BlobError>>, taken: seq<Bytes>)
    requires source != [] && source[0].Ok? && AllOk(source[1..])
    ensures AllOk(source)
    ensures taken + Pieces(source) == (taken + [source[0].value]) + Pieces(source[1..])
  {
    assert source == [source[0]] + source[1..];
  }

  lemma {:induction false} ConsumeKeeps(
    p: UploadParams, before: Store, u: Upload, taken: seq<Bytes>, source: seq<Result<Bytes, BlobError>>)
    requires p.chunkSize > 0 && UploadInvariant(p, before, u, taken) && Consume(p, u, source).1.Ok?
    ensures AllOk(source)
    ensures UploadInvariant(p, before, Consume(p, u, source).1.value, taken + Pieces(source))
    decreases |source|
  {
    if source == [] {
      assert taken + Pieces(source) == taken;
    } else {
      var next := source[0].value;
      TakeKeeps(p, before, u, taken, next);
      ConsumeKeeps(p, before, Take(p, u, next).1.value, taken + [next], source[1..]);
      PiecesFront(source, taken);
    }
  }

  /** The manifest that describes `pieces`. */
  function Describe(p: UploadParams, pieces: seq<Bytes>): BlobManifest {
    BlobManifest(BlobRef(p.hash(Flatten(pieces)), |Flatten(pieces)|), p.chunkSize, Digests(p.hash, pieces))
  }

  /** `staged` is the store just before the commit, when the upload gets that far. */
  ghost predicate ReachesCommit(p: UploadParams, before: Store, pieces: seq<Bytes>, staged: Store, after: Store) {
    && StoreOk(p.hash, staged) && Grows(before, staged) && Staged(p.hash, staged, pieces)
    && (Quiet(p) ==> SameVisible(before, staged))
    && (after, Ok(())) == Commit(p.hash, p.limits, staged, Describe(p, pieces))
  }

  /** The store as the upload finds it when it commits, with what other writers did until then. */
  function AtCommit(p: UploadParams, u: Upload): Store {
    Meanwhile(p, Flush(p, u).0, |u.chunks| + if u.pending.Some? then 1 else 0)
  }

  function StoreAtCommit(p: UploadParams, s: Store, source: seq<Result<Bytes, BlobError>>): Store
    requires UploadStream(p, s, source).1.Ok?
  {
    AtCommit(p, Consume(p, Begin(s), source).1.value)
  }

  lemma FlushKeeps(p: UploadParams, before: Store, u: Upload, pieces: seq<Bytes>)
    requires UploadInvariant(p, before, u, pieces) && Flush(p, u).1.Ok?
    ensures Accumulated(p, before, Flush(p, u).1.value, pieces)
    ensures Flush(p, u).1.value.store == Flush(p, u).0
    ensures |pieces| == |u.chunks| + if u.pending.Some? then 1 else 0
  {
    if u.pending.Some? {
      var n := |pieces| - 1;
      assert pieces == pieces[..n] + [u.pending.value];
      UploadOneKeeps(p, before, u, pieces[..n], u.pending.value);
    }
  }

  lemma ConcludeReaches(p: UploadParams, before: Store, u: Upload, pieces: seq<Bytes>)
    requires p.chunkSize > 0 && UploadInvariant(p, before, u, pieces) && Conclude(p, u).1.Ok?
    ensures LaidOut(pieces, p.chunkSize) && |Flatten(pieces)| <= U64_MAX && |pieces| <= p.maxChunks
    ensures Conclude(p, u).1.value == Describe(p, pieces)
    ensures ReachesCommit(p, before, pieces, AtCommit(p, u), Conclude(p, u).0)
  {
    var flushed := Flush(p, u).0;
    FlushKeeps(p, before, u, pieces);
    OperationsKeep(p.hash, p.limits, flushed, p.others(|pieces|));
    GrowsOn(before, flushed, AtCommit(p, u));
  }

  lemma UploadReaches(p: UploadParams, s: Store, source: seq<Result<Bytes, BlobError>>)
    requires StoreOk(p.hash, s) && UploadStream(p, s, source).1.Ok?
    ensures AllOk(source)
    ensures var pieces := Pieces(source);
            && p.chunkSize > 0 && LaidOut(pieces, p.chunkSize)
            && |Flatten(pieces)| <= U64_MAX && |pieces| <= p.maxChunks
            && UploadStream(p, s, source).1.value == Describe(p, pieces)
            && ReachesCommit(p, s, pieces, StoreAtCommit(p, s, source), UploadStream(p, s, source).0)
  {
    ConsumeKeeps(p, s, Begin(s), [], source);
    assert [] + Pieces(source) == Pieces(source);
    ConcludeReaches(p, s, Consume(p, Begin(s), source).1.value, Pieces(source));
  }

  /**
   * Whenever an upload succeeds, whatever other writers do in between, its manifest is the one
   * defined on the complete content.
   */
  lemma UploadRefinesForBytes(p: UploadParams, s: Store, source: seq<Result<Bytes, BlobError>>)
    requires StoreOk(p.hash, s) && UploadStream(p, s, source).1.Ok?
    ensures AllOk(source)
    ensures ForBytes(p.hash, Flatten(Pieces(source)), p.chunkSize) == UploadStream(p, s, source).1
  {
    UploadReaches(p, s, source);
    SplitUndoesFlatten(Pieces(source), p.chunkSize);
  }

  // ---------------------------------------------------------------------------------------------
  // Visibility after the upload
  // ---------------------------------------------------------------------------------------------

  /** The byte strings in play: those stored at the end, the pieces and the content. */
  function Touched(after: Store, pieces: seq<Bytes>): set<Bytes> {
    after.chunks.Values + after.blobs.Values + (set x | x in pieces) + {Flatten(pieces)}
  }

  /** Without collisions the stored chunk of each piece is that piece. */
  lemma StagedIsExact(hash: Hash, staged: Store, after: Store, pieces: seq<Bytes>, i: nat)
    requires StoreOk(hash, staged) && Grows(staged, after) && Staged(hash, staged, pieces)
    requires NoCollision(hash, Touched(after, pieces)) && i < |pieces|
    ensures hash(pieces[i]) in staged.chunks && staged.chunks[hash(pieces[i])] == pieces[i]
  {
    var d := hash(pieces[i]);
    assert after.chunks[d] in after.chunks.Values;
    assert staged.chunks[d] in Touched(after, pieces) && pieces[i] in Touched(after, pieces);
  }

  /** Each piece is stored under its digest. */
  ghost predicate Holds(hash: Hash, s: Store, pieces: seq<Bytes>) {
    forall i :: 0 <= i < |pieces| ==> hash(pieces[i]) in s.chunks && s.chunks[hash(pieces[i])] == pieces[i]
  }

  lemma {:induction false} AssembleIsFlatten(hash: Hash, s: Store, pieces: seq<Bytes>, m: BlobManifest, n: nat)
    requires Holds(hash, s, pieces) && m.chunks == Digests(hash, pieces) && n <= |pieces|
    requires Assemble(hash, s, m, n).Ok?
    ensures Assemble(hash, s, m, n) == Ok(Flatten(pieces[..n]))
    decreases n
  {
    if n == 0 {
    } else {
      AssembleIsFlatten(hash, s, pieces, m, n - 1);
      assert pieces[..n][..n - 1] == pieces[..n - 1];
    }
  }

  lemma AllHeld(hash: Hash, staged: Store, after: Store, pieces: seq<Bytes>)
    requires StoreOk(hash, staged) && Grows(staged, after) && Staged(hash, staged, pieces)
    requires NoCollision(hash, Touched(after, pieces))
    ensures Holds(hash, staged, pieces)
  {
    forall i | 0 <= i < |pieces|
      ensures hash(pieces[i]) in staged.chunks && staged.chunks[hash(pieces[i])] == pieces[i]
    {
      StagedIsExact(hash, staged, after, pieces, i);
    }
  }

  /** `after` holds the pieces and their content, and publishes the chunks unless the content was there. */
  ghost predicate Published(p: UploadParams, pieces: seq<Bytes>, staged: Store, after: Store) {
    var content := Flatten(pieces);
    && StoreOk(p.hash, after) && Holds(p.hash, after, pieces)
    && p.hash(content) in after.blobs && after.blobs[p.hash(content)] == content
    && after.published == if p.hash(content) in staged.blobs then staged.published
                          else staged.published + (set d | d in Digests(p.hash, pieces))
  }

  lemma CommitPublishes(p: UploadParams, before: Store, pieces: seq<Bytes>, staged: Store, after: Store)
    requires ReachesCommit(p, before, pieces, staged, after) && NoCollision(p.hash, Touched(after, pieces))
    ensures Published(p, pieces, staged, after)
  {
    CommitKeepsStoreOk(p.hash, p.limits, staged, Describe(p, pieces));
    AllHeld(p.hash, staged, after, pieces);
    var d := p.hash(Flatten(pieces));
    if d in staged.blobs {
      assert after.blobs[d] in after.blobs.Values;
      assert after.blobs[d] in Touched(after, pieces) && Flatten(pieces) in Touched(after, pieces);
    } else {
      AssembleIsFlatten(p.hash, staged, pieces, Describe(p, pieces), |pieces|);
      assert pieces[..|pieces|] == pieces;
    }
  }

  /** The outcome of a successful upload, in terms of the store it found when it committed. */
  lemma CommitOutcome(p: UploadParams, s: Store, source: seq<Result<Bytes, BlobError>>)
    requires StoreOk(p.hash, s) && AllOk(source) && UploadStream(p, s, source).1.Ok?
    requires NoCollision(p.hash, Touched(UploadStream(p, s, source).0, Pieces(source)))
    ensures Published(p, Pieces(source), StoreAtCommit(p, s, source), UploadStream(p, s, source).0)
  {
    UploadReaches(p, s, source);
    CommitPublishes(p, s, Pieces(source), StoreAtCommit(p, s, source), UploadStream(p, s, source).0);
  }

  /**
   * Whenever an upload succeeds, whatever other writers do in between, reading the blob returns
   * the concatenation of the source, and still does after anything that is done to the store later.
   */
  lemma UploadedContentIsReadable(
    p: UploadParams, s: Store, source: seq<Result<Bytes, BlobError>>, later: seq<StoreOp>)
    requires StoreOk(p.hash, s) && UploadStream(p, s, source).1.Ok? && AllOk(source)
    requires NoCollision(p.hash, Touched(UploadStream(p, s, source).0, Pieces(source)))
    ensures var (after, r) := UploadStream(p, s, source);
            Get(p.hash, ApplyAll(p.hash, p.limits, after, later), r.value.blob) == Some(Flatten(Pieces(source)))
  {
    UploadReaches(p, s, source);
    CommitOutcome(p, s, source);
    OperationsKeep(p.hash, p.limits, UploadStream(p, s, source).0, later);
  }

  // ---------------------------------------------------------------------------------------------
  // Download after upload
  // ---------------------------------------------------------------------------------------------

  ghost predicate SinkAccepts(sink: Sink, pieces: seq<Bytes>) {
    forall i :: 0 <= i <= |pieces| ==> sink(pieces[..i]).None?
  }

  /** The store when the download has read it `n` times. */
  function AfterReads(d: DownloadParams, s: Store, n: nat): Store {
    if n == 0 then s else ApplyAll(d.hash, d.limits, AfterReads(d, s, n - 1), d.others(n - 1))
  }

  /** From read `index` on, each chunk is published by the time it is read. */
  ghost predicate PublishedInTime(d: DownloadParams, s: Store, m: BlobManifest, index: nat) {
    forall i :: index <= i < |m.chunks| ==> m.chunks[i] in AfterReads(d, s, i + 1).published
  }

  lemma {:induction false} ReadsKeep(d: DownloadParams, s: Store, pieces: seq<Bytes>, n: nat)
    requires StoreOk(d.hash, s) && Holds(d.hash, s, pieces)
    ensures StoreOk(d.hash, AfterReads(d, s, n)) && Grows(s, AfterReads(d, s, n))
    ensures Holds(d.hash, AfterReads(d, s, n), pieces)
  {
    if n == 0 {
    } else {
      var before := AfterReads(d, s, n - 1);
      ReadsKeep(d, s, pieces, n - 1);
      OperationsKeep(d.hash, d.limits, before, d.others(n - 1));
      GrowsOn(s, before, AfterReads(d, s, n));
    }
  }

  /** A store that holds the pieces has no fault to show but that one is not published. */
  lemma HeldChunk(hash: Hash, now: Store, m: BlobManifest, pieces: seq<Bytes>, index: nat)
    requires m.chunks == Digests(hash, pieces) && LaidOut(pieces, m.chunkSize)
    requires Holds(hash, now, pieces) && index < |pieces|
    ensures m.chunks[index] in now.chunks && now.chunks[m.chunks[index]] == pieces[index]
    ensures ChunkFault(hash, now, m, index, |m.chunks|)
            == if m.chunks[index] in now.published then None else Some(MissingChunk)
  {
    assert m.chunks[index] == hash(pieces[index]);
  }

  lemma PrefixStep(pieces: seq<Bytes>, index: nat)
    requires index < |pieces|
    ensures pieces[..index] + [pieces[index]] == pieces[..index + 1]
    ensures |Flatten(pieces[..index])| + |pieces[index]| <= |Flatten(pieces)|
  {
    assert pieces[..index + 1][..index] == pieces[..index];
    ConcatPrefix(pieces, index + 1);
  }

  /** One step of the transfer, when the store it reads holds the pieces. */
  lemma FetchStep(d: DownloadParams, s: Store, m: BlobManifest, pieces: seq<Bytes>, index: nat)
    requires m.chunks == Digests(d.hash, pieces) && LaidOut(pieces, m.chunkSize)
    requires |Flatten(pieces)| <= U64_MAX && index < |pieces| <= U32_MAX + 1 && SinkAccepts(d.sink, pieces)
    requires Holds(d.hash, ApplyAll(d.hash, d.limits, s, d.others(index)), pieces)
    ensures var now := ApplyAll(d.hash, d.limits, s, d.others(index));
            Fetch(d, s, m, index, pieces[..index])
            == if m.chunks[index] in now.published then Fetch(d, now, m, index + 1, pieces[..index + 1])
               else (now, pieces[..index], Err(MissingChunk))
  {
    HeldChunk(d.hash, ApplyAll(d.hash, d.limits, s, d.others(index)), m, pieces, index);
    PrefixStep(pieces, index);
    assert d.sink(pieces[..index + 1]).None?;
  }

  lemma PublishedStep(d: DownloadParams, s: Store, m: BlobManifest, index: nat)
    requires index < |m.chunks|
    ensures PublishedInTime(d, s, m, index)
            <==> m.chunks[index] in AfterReads(d, s, index + 1).published && PublishedInTime(d, s, m, index + 1)
  {
  }

  /** The transfer from read `index` on wrote all pieces and succeeded. */
  ghost predicate WritesAll(d: DownloadParams, s: Store, m: BlobManifest, pieces: seq<Bytes>, index: nat)
    requires index <= |pieces| == |m.chunks|
  {
    var (_, written, r) := Fetch(d, AfterReads(d, s, index), m, index, pieces[..index]);
    written == pieces && r == Ok(())
  }

  lemma WritesStep(d: DownloadParams, s: Store, m: BlobManifest, pieces: seq<Bytes>, index: nat)
    requires m.chunks == Digests(d.hash, pieces) && LaidOut(pieces, m.chunkSize)
    requires |Flatten(pieces)| <= U64_MAX && index < |pieces| <= U32_MAX + 1 && SinkAccepts(d.sink, pieces)
    requires StoreOk(d.hash, s) && Holds(d.hash, s, pieces)
    ensures WritesAll(d, s, m, pieces, index)
            <==> m.chunks[index] in AfterReads(d, s, index + 1).published && WritesAll(d, s, m, pieces, index + 1)
  {
    ReadsKeep(d, s, pieces, index + 1);
    FetchStep(d, AfterReads(d, s, index), m, pieces, index);
  }

  lemma {:induction false} FetchWrites(d: DownloadParams, s: Store, m: BlobManifest, pieces: seq<Bytes>, index: nat)
    requires m.blob == BlobRef(d.hash(Flatten(pieces)), |Flatten(pieces)|) && m.chunks == Digests(d.hash, pieces)
    requires LaidOut(pieces, m.chunkSize) && |Flatten(pieces)| <= U64_MAX && |pieces| <= U32_MAX + 1
    requires StoreOk(d.hash, s) && Holds(d.hash, s, pieces)
    requires SinkAccepts(d.sink, pieces) && index <= |pieces|
    ensures WritesAll(d, s, m, pieces, index) <==> PublishedInTime(d, s, m, index)
    decreases |pieces| - index
  {
    if index == |pieces| {
      assert pieces[..index] == pieces;
    } else {
      WritesStep(d, s, m, pieces, index);
      PublishedStep(d, s, m, index);
      FetchWrites(d, s, m, pieces, index + 1);
    }
  }

  lemma {:induction false} ConcatPrefix(pieces: seq<Bytes>, n: nat)
    requires n <= |pieces|
    ensures |Flatten(pieces[..n])| <= |Flatten(pieces)|
    decreases |pieces|
  {
    var k := |pieces|;
    if n == k {
      assert pieces[..n] == pieces;
    } else {
      assert pieces[..k - 1][..n] == pieces[..n];
      ConcatPrefix(pieces[..k - 1], n);
    }
  }

  /** The pieces can be fetched one by one: the content is new, or its chunks were already published. */
  ghost predicate Fetchable(p: UploadParams, s: Store, pieces: seq<Bytes>) {
    || p.hash(Flatten(pieces)) !in s.blobs
    || (forall i :: 0 <= i < |pieces| ==> p.hash(pieces[i]) in s.published)
  }

  /** All chunks of these pieces are published. */
  ghost predicate AllPublished(hash: Hash, s: Store, pieces: seq<Bytes>) {
    forall i :: 0 <= i < |pieces| ==> hash(pieces[i]) in s.published
  }

  lemma PublishedIffFetchable(p: UploadParams, staged: Store, after: Store, pieces: seq<Bytes>)
    requires after.published == if p.hash(Flatten(pieces)) in staged.blobs then staged.published
                                else staged.published + (set d | d in Digests(p.hash, pieces))
    ensures AllPublished(p.hash, after, pieces) <==> Fetchable(p, staged, pieces)
  {
    assert forall i :: 0 <= i < |pieces| ==> Digests(p.hash, pieces)[i] == p.hash(pieces[i]);
  }

  /** The download returned exactly these pieces. */
  predicate Returns(d: DownloadParams, s: Store, m: BlobManifest, pieces: seq<Bytes>) {
    var (_, written, r) := DownloadStream(d, s, m);
    written == pieces && r == Ok(())
  }

  /** A download on the same store, with limits and a sink that let the pieces through. */
  ghost predicate Admits(d: DownloadParams, p: UploadParams, pieces: seq<Bytes>) {
    && d.hash == p.hash && d.limits == p.limits && SinkAccepts(d.sink, pieces)
    && p.chunkSize <= d.maxChunkBytes && |pieces| <= d.maxChunks && |pieces| <= U32_MAX + 1
  }

  /** No other writer touches the store during the download. */
  ghost predicate QuietReads(d: DownloadParams) {
    forall k :: d.others(k) == []
  }

  lemma {:induction false} QuietReadsChangeNothing(d: DownloadParams, s: Store, n: nat)
    requires QuietReads(d)
    ensures AfterReads(d, s, n) == s
  {
    if n == 0 {
    } else {
      QuietReadsChangeNothing(d, s, n - 1);
    }
  }

  lemma InTimeIff(d: DownloadParams, s: Store, m: BlobManifest, pieces: seq<Bytes>)
    requires m.chunks == Digests(d.hash, pieces) && StoreOk(d.hash, s) && Holds(d.hash, s, pieces)
    ensures AllPublished(d.hash, s, pieces) ==> PublishedInTime(d, s, m, 0)
    ensures QuietReads(d) && PublishedInTime(d, s, m, 0) ==> AllPublished(d.hash, s, pieces)
  {
    forall i | 0 <= i < |pieces|
      ensures Grows(s, AfterReads(d, s, i + 1)) && m.chunks[i] == d.hash(pieces[i])
      ensures QuietReads(d) ==> AfterReads(d, s, i + 1) == s
    {
      ReadsKeep(d, s, pieces, i + 1);
      if QuietReads(d) {
        QuietReadsChangeNothing(d, s, i + 1);
      }
    }
  }

  /**
   * Round trip with other writers during both transfers: the download after a successful upload
   * writes back exactly the source pieces in order if and only if each chunk is published by the
   * time it is read.
   */
  lemma DownloadAmidOthers(p: UploadParams, s: Store, source: seq<Result<Bytes, BlobError>>, d: DownloadParams)
    requires StoreOk(p.hash, s) && UploadStream(p, s, source).1.Ok? && AllOk(source)
    requires NoCollision(p.hash, Touched(UploadStream(p, s, source).0, Pieces(source)))
    requires Admits(d, p, Pieces(source))
    ensures var (after, r) := UploadStream(p, s, source);
            Returns(d, after, r.value, Pieces(source)) <==> PublishedInTime(d, after, r.value, 0)
  {
    UploadReaches(p, s, source);
    CommitOutcome(p, s, source);
    var pieces := Pieces(source);
    var (after, r) := UploadStream(p, s, source);
    LaidOutLength(pieces, p.chunkSize);
    FetchWrites(d, after, r.value, pieces, 0);
    assert pieces[..0] == [];
  }

  /**
   * So the pieces come back, whatever other writers do, if the upload found its content new when it
   * committed, or all its chunks published; and with nobody writing during the download only then.
   * (A commit of content that is already published returns early and publishes no chunk.)
   */
  lemma DownloadIffFetchable(p: UploadParams, s: Store, source: seq<Result<Bytes, BlobError>>, d: DownloadParams)
    requires StoreOk(p.hash, s) && UploadStream(p, s, source).1.Ok? && AllOk(source)
    requires NoCollision(p.hash, Touched(UploadStream(p, s, source).0, Pieces(source)))
    requires Admits(d, p, Pieces(source))
    ensures var (after, r) := UploadStream(p, s, source);
            var fetchable := Fetchable(p, StoreAtCommit(p, s, source), Pieces(source));
            && (fetchable ==> Returns(d, after, r.value, Pieces(source)))
            && (QuietReads(d) ==> (Returns(d, after, r.value, Pieces(source)) <==> fetchable))
  {
    var (after, r) := UploadStream(p, s, source);
    UploadReaches(p, s, source);
    CommitOutcome(p, s, source);
    DownloadAmidOthers(p, s, source, d);
    PublishedIffFetchable(p, StoreAtCommit(p, s, source), after, Pieces(source));
    InTimeIff(d, after, r.value, Pieces(source));
  }

  /**
   * Round trip with nobody else writing: the download after a successful upload writes back exactly
   * the source pieces if and only if, before the upload, the content was not published or all its
   * chunks already were.
   */
  lemma DownloadReturnsPieces(p: UploadParams, s: Store, source: seq<Result<Bytes, BlobError>>, d: DownloadParams)
    requires StoreOk(p.hash, s) && UploadStream(p, s, source).1.Ok? && AllOk(source)
    requires Quiet(p) && QuietReads(d)
    requires NoCollision(p.hash, Touched(UploadStream(p, s, source).0, Pieces(source)))
    requires Admits(d, p, Pieces(source))
    ensures var (after, r) := UploadStream(p, s, source);
            Returns(d, after, r.value, Pieces(source)) <==> Fetchable(p, s, Pieces(source))
  {
    UploadReaches(p, s, source);
    DownloadIffFetchable(p, s, source, d);
  }

  // ---------------------------------------------------------------------------------------------
  // Commit before visibility
  // ---------------------------------------------------------------------------------------------

  lemma PublishedByCommit(hash: Hash, limits: Limits, s: Store, op: StoreOp, d: Digest)
    requires d !in s.blobs && d in Apply(hash, limits, s, op).blobs
    ensures op.Publish? && op.m.blob.digest == d && Commit(hash, limits, s, op.m).1.Ok?
  {
  }

  /** The operation of a run that made a blob readable. */
  lemma {:induction false} FirstReadable(hash: Hash, limits: Limits, ops: seq<StoreOp>, d: Digest) returns (k: nat)
    requires d in ApplyAll(hash, limits, EMPTY, ops).blobs
    ensures k < |ops|
    ensures d !in ApplyAll(hash, limits, EMPTY, ops[..k]).blobs
    ensures d in Apply(hash, limits, ApplyAll(hash, limits, EMPTY, ops[..k]), ops[k]).blobs
  {
    var n := |ops| - 1;
    if d in ApplyAll(hash, limits, EMPTY, ops[..n]).blobs {
      k := FirstReadable(hash, limits, ops[..n], d);
      assert ops[..n][..k] == ops[..k];
    } else {
      k := n;
    }
  }

  /** What a reader can obtain after a run was published by one commit of the run, and not before it. */
  lemma ReadableWasCommitted(hash: Hash, limits: Limits, ops: seq<StoreOp>, blob: BlobRef) returns (k: nat)
    requires Get(hash, ApplyAll(hash, limits, EMPTY, ops), blob).Some?
    ensures k < |ops| && ops[k].Publish? && ops[k].m.blob.digest == blob.digest
    ensures Commit(hash, limits, ApplyAll(hash, limits, EMPTY, ops[..k]), ops[k].m).1.Ok?
    ensures blob.digest !in ApplyAll(hash, limits, EMPTY, ops[..k]).blobs
    ensures blob.digest in Commit(hash, limits, ApplyAll(hash, limits, EMPTY, ops[..k]), ops[k].m).0.blobs
  {
    k := FirstReadable(hash, limits, ops, blob.digest);
    PublishedByCommit(hash, limits, ApplyAll(hash, limits, EMPTY, ops[..k]), ops[k], blob.digest);
  }
}
