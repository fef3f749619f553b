/**
 * When a streamed upload succeeds (`upload_stream` in `crates/aequora-blob/src/lib.rs`): exactly
 * when the source is laid out in full pieces and within the caller's and the store's limits.
 */
module BlobSuccess {
  import opened Base
  import opened Blob
  import opened BlobTheorems

  /** The source respects the layout and every limit that applies to it. */
  ghost predicate Suits(p: UploadParams, pieces: seq<Bytes>) {
    && LaidOut(pieces, p.chunkSize) && |pieces| <= p.maxChunks
    && p.chunkSize <= p.limits.maxChunkBytes
    && |Flatten(pieces)| <= p.maxBlobBytes && |Flatten(pieces)| <= p.limits.maxBlobBytes
  }

  lemma FlattenStep(pieces: seq<Bytes>, n: nat)
    requires n < |pieces|
    ensures |Flatten(pieces[..n])| + |pieces[n]| <= |Flatten(pieces)|
  {
    assert pieces[..n + 1][..n] == pieces[..n];
    ConcatPrefix(pieces, n + 1);
  }

  lemma UploadOneSucceeds(p: UploadParams, before: Store, u: Upload, pieces: seq<Bytes>, n: nat)
    requires Suits(p, pieces) && n < |pieces| && Accumulated(p, before, u, pieces[..n])
    ensures UploadOne(p, u, pieces[n]).1.Ok? && UploadOne(p, u, pieces[n]).1.value.total <= |Flatten(pieces)|
  {
    FlattenStep(pieces, n);
  }

  lemma TakeSucceeds(p: UploadParams, before: Store, u: Upload, pieces: seq<Bytes>, n: nat)
    requires Suits(p, pieces) && n < |pieces| && UploadInvariant(p, before, u, pieces[..n])
    ensures Take(p, u, pieces[n]).1.Ok?
  {
    if u.pending.Some? {
      assert pieces[..n][..n - 1] == pieces[..n - 1];
      UploadOneSucceeds(p, before, u.(pending := Some(pieces[n])), pieces, n - 1);
    }
  }

  /** Taking the next piece succeeds and keeps the invariant. */
  lemma TakeNext(p: UploadParams, before: Store, u: Upload, pieces: seq<Bytes>, n: nat)
    requires p.chunkSize > 0 && Suits(p, pieces) && n < |pieces| && UploadInvariant(p, before, u, pieces[..n])
    ensures Take(p, u, pieces[n]).1.Ok?
    ensures UploadInvariant(p, before, Take(p, u, pieces[n]).1.value, pieces[..n + 1])
  {
    TakeSucceeds(p, before, u, pieces, n);
    TakeKeeps(p, before, u, pieces[..n], pieces[n]);
    assert pieces[..n] + [pieces[n]] == pieces[..n + 1];
  }

  lemma {:induction false} ConsumeSucceeds(
    p: UploadParams, before: Store, u: Upload, source: seq<Result<Bytes, BlobError>>, n: nat)
    requires p.chunkSize > 0 && AllOk(source) && Suits(p, Pieces(source)) && n <= |source|
    requires UploadInvariant(p, before, u, Pieces(source)[..n])
    ensures Consume(p, u, source[n..]).1.Ok?
    decreases |source| - n
  {
    if n == |source| {
    } else {
      var next := Pieces(source)[n];
      assert source[n..][0] == Ok(next) && source[n..][1..] == source[n + 1..];
      TakeNext(p, before, u, Pieces(source), n);
      ConsumeSucceeds(p, before, Take(p, u, next).1.value, source, n + 1);
    }
  }

  lemma PieceLength(p: UploadParams, pieces: seq<Bytes>, i: nat)
    requires p.chunkSize > 0 && LaidOut(pieces, p.chunkSize) && i < |pieces|
    ensures ExpectedLength(Describe(p, pieces), i) == |pieces[i]|
  {
    LaidOutLength(pieces, p.chunkSize);
  }

  lemma {:induction false} AssembleSucceeds(p: UploadParams, s: Store, pieces: seq<Bytes>, n: nat)
    requires p.chunkSize > 0 && LaidOut(pieces, p.chunkSize) && Holds(p.hash, s, pieces) && n <= |pieces|
    ensures Assemble(p.hash, s, Describe(p, pieces), n).Ok?
    decreases n
  {
    if n == 0 {
    } else {
      AssembleSucceeds(p, s, pieces, n - 1);
      PieceLength(p, pieces, n - 1);
    }
  }

  lemma CommitSucceeds(p: UploadParams, s: Store, pieces: seq<Bytes>)
    requires p.chunkSize > 0 && Suits(p, pieces) && Holds(p.hash, s, pieces)
    ensures Commit(p.hash, p.limits, s, Describe(p, pieces)).1.Ok?
  {
    LaidOutLength(pieces, p.chunkSize);
    AssembleSucceeds(p, s, pieces, |pieces|);
    AssembleIsFlatten(p.hash, s, pieces, Describe(p, pieces), |pieces|);
    assert pieces[..|pieces|] == pieces;
  }

  lemma ConcludeSucceeds(p: UploadParams, before: Store, u: Upload, pieces: seq<Bytes>)
    requires p.chunkSize > 0 && Suits(p, pieces) && UploadInvariant(p, before, u, pieces)
    requires NoCollision(p.hash, Touched(Conclude(p, u).0, pieces))
    ensures Conclude(p, u).1.Ok?
  {
    if u.pending.Some? {
      assert pieces[|pieces| - 1] == u.pending.value;
      UploadOneSucceeds(p, before, u, pieces, |pieces| - 1);
    }
    FlushKeeps(p, before, u, pieces);
    var staged := AtCommit(p, u);
    OperationsKeep(p.hash, p.limits, Flush(p, u).0, p.others(|pieces|));
    CommitKeepsStoreOk(p.hash, p.limits, staged, Describe(p, pieces));
    AllHeld(p.hash, staged, Conclude(p, u).0, pieces);
    CommitSucceeds(p, staged, pieces);
  }

  lemma SuccessMeansSuits(p: UploadParams, s: Store, source: seq<Result<Bytes, BlobError>>)
    requires StoreOk(p.hash, s) && UploadStream(p, s, source).1.Ok?
    ensures AllOk(source) && Suits(p, Pieces(source))
  {
    UploadReaches(p, s, source);
    var u := Consume(p, Begin(s), source).1.value;
    assert Conclude(p, u).1.value.blob.length <= p.maxBlobBytes;
  }

  /**
   * An upload succeeds, whatever other writers do in between, if and only if no piece fails to
   * arrive and the pieces suit all limits.
   */
  lemma UploadSucceedsIff(p: UploadParams, s: Store, source: seq<Result<Bytes, BlobError>>)
    requires StoreOk(p.hash, s) && p.chunkSize > 0 && p.maxBlobBytes > 0 && p.maxChunks > 0
    requires AllOk(source) ==> NoCollision(p.hash, Touched(UploadStream(p, s, source).0, Pieces(source)))
    ensures UploadStream(p, s, source).1.Ok? <==> AllOk(source) && Suits(p, Pieces(source))
  {
    if UploadStream(p, s, source).1.Ok? {
      SuccessMeansSuits(p, s, source);
    } else if AllOk(source) && Suits(p, Pieces(source)) {
      assert source[0..] == source && Pieces(source)[..0] == [];
      ConsumeSucceeds(p, s, Begin(s), source, 0);
      ConsumeKeeps(p, s, Begin(s), [], source);
      assert [] + Pieces(source) == Pieces(source);
      ConcludeSucceeds(p, s, Consume(p, Begin(s), source).1.value, Pieces(source));
    }
  }

  // ---------------------------------------------------------------------------------------------
  // The early return of a commit
  // ---------------------------------------------------------------------------------------------

  /** Strings stand for their own digests, which rules out collisions. */
  function Itself(bytes: Bytes): Digest {
    bytes
  }

  /** Uploads in pieces of `chunkSize` bytes with nobody else around. */
  function Alone(chunkSize: u32): UploadParams {
    UploadParams(Itself, Limits(2, 2), chunkSize, 2, 2, _ => [])
  }

  /** Downloads with nobody else around. */
  function Fetching(sink: Sink): DownloadParams {
    DownloadParams(Itself, Limits(2, 2), 2, 2, sink, _ => [])
  }

  lemma UploadsAlone(s: Store, source: seq<Result<Bytes, BlobError>>, chunkSize: u32)
    requires StoreOk(Itself, s) && AllOk(source) && chunkSize > 0 && Suits(Alone(chunkSize), Pieces(source))
    ensures UploadStream(Alone(chunkSize), s, source).1.Ok?
    ensures NoCollision(Itself, Touched(UploadStream(Alone(chunkSize), s, source).0, Pieces(source)))
  {
    UploadSucceedsIff(Alone(chunkSize), s, source);
  }

  const WHOLE: seq<Result<Bytes, BlobError>> := [Ok([1, 2])]
  const HALVES: seq<Result<Bytes, BlobError>> := [Ok([1]), Ok([2])]

  lemma WholeAndHalves()
    ensures AllOk(WHOLE) && AllOk(HALVES)
    ensures Pieces(WHOLE) == [[1, 2]] && Pieces(HALVES) == [[1], [2]]
    ensures Flatten(Pieces(WHOLE)) == Flatten(Pieces(HALVES)) == [1, 2]
  {
    var one: seq<Bytes> := [[1, 2]];
    var two: seq<Bytes> := [[1], [2]];
    assert Pieces(WHOLE) == one && Pieces(HALVES) == two;
    assert one[..0] == [] && two[..1] == [[1]] && two[..1][..0] == [];
  }

  lemma WholeUploads()
    ensures AllOk(WHOLE) && UploadStream(Alone(2), EMPTY, WHOLE).1.Ok?
    ensures NoCollision(Itself, Touched(UploadStream(Alone(2), EMPTY, WHOLE).0, Pieces(WHOLE)))
  {
    WholeAndHalves();
    UploadsAlone(EMPTY, WHOLE, 2);
  }

  lemma OnePublished(p: UploadParams, pieces: seq<Bytes>, s: Store)
    requires p.hash == Itself && pieces == [[1, 2]]
    requires s.published == {} || s.published == {} + (set d | d in Digests(p.hash, pieces))
    ensures [1] !in s.published
  {
    assert Digests(p.hash, pieces) == [[1, 2]];
    assert [1] != [1, 2] by {
      assert |[1]| != |[1, 2]|;
    }
  }

  /** The store that a fresh store becomes when the content is uploaded in one piece. */
  lemma AfterWhole()
    ensures AllOk(WHOLE) && UploadStream(Alone(2), EMPTY, WHOLE).1.Ok?
    ensures var s := UploadStream(Alone(2), EMPTY, WHOLE).0;
            StoreOk(Itself, s) && [1, 2] in s.blobs && [1] !in s.published
  {
    WholeUploads();
    UploadReaches(Alone(2), EMPTY, WHOLE);
    CommitOutcome(Alone(2), EMPTY, WHOLE);
    WholeAndHalves();
    OnePublished(Alone(2), Pieces(WHOLE), UploadStream(Alone(2), EMPTY, WHOLE).0);
  }

  /**
   * Content uploaded in one piece and then again in two: both uploads succeed, but the pieces of
   * the second cannot be downloaded.
   */
  lemma ReuploadCannotBeFetched(sink: Sink)
    requires SinkAccepts(sink, [[1], [2]])
    ensures var s := UploadStream(Alone(2), EMPTY, WHOLE).0;
            var (after, r) := UploadStream(Alone(1), s, HALVES);
            r.Ok? && !Returns(Fetching(sink), after, r.value, [[1], [2]])
  {
    AfterWhole();
    WholeAndHalves();
    var s := UploadStream(Alone(2), EMPTY, WHOLE).0;
    UploadsAlone(s, HALVES, 1);
    DownloadReturnsPieces(Alone(1), s, HALVES, Fetching(sink));
    assert Pieces(HALVES)[0] == [1];
  }
}
