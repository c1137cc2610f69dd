/**
 * Client side of scheduled transfers: encrypting a file chunk by chunk into the store, and reading it back.
 * AES-256-GCM under the upload's key is a pair of functions; only its functional laws are used.
 */
module ScheduleClient {
  import opened Prelude
  import opened Endian
  import opened ScheduleStore

  const PREFIX_SIZE := 8

  datatype Aead = Aead(seal: (Bytes, Bytes) -> Bytes, open: (Bytes, Bytes) -> Option<Bytes>)

  /** One sealing, tag included, opens again. */
  predicate OpensSealed(a: Aead, nonce: Bytes, plain: Bytes) {
    |a.seal(nonce, plain)| == |plain| + TAG_SIZE && a.open(nonce, a.seal(nonce, plain)) == Some(plain)
  }

  ghost predicate Correct(a: Aead) {
    forall n, p :: OpensSealed(a, n, p)
  }

  lemma OpensAny(a: Aead, nonce: Bytes, plain: Bytes)
    requires Correct(a)
    ensures OpensSealed(a, nonce, plain)
  {
  }

  // ---------------------------------------------------------------- chunks, nonces, wire format

  /** The plaintext cut into pieces of cs bytes, the last possibly shorter, as successive io.ReadFull calls see it. */
  function ChunksOf(plain: Bytes, cs: nat): (chunks: seq<Bytes>)
    requires cs >= 1
    ensures forall i :: 0 <= i < |chunks| ==> 1 <= |chunks[i]| <= cs && (i < |chunks| - 1 ==> |chunks[i]| == cs)
  {
    if plain == [] then [] else
      var n := Min(cs, |plain|);
      [plain[..n]] + ChunksOf(plain[n..], cs)
  }

  lemma {:induction false} ChunksRejoin(plain: Bytes, cs: nat)
    requires cs >= 1
    ensures Flatten(ChunksOf(plain, cs)) == plain
    ensures |ChunksOf(plain, cs)| == ChunkCount(|plain|, cs)
    decreases |plain|
  {
    if plain != [] {
      var n := Min(cs, |plain|);
      ChunksRejoin(plain[n..], cs);
      assert ChunksOf(plain, cs)[1..] == ChunksOf(plain[n..], cs);
      assert plain == plain[..n] + plain[n..];
      OneChunkMore(|plain|, cs);
    } else {
      ChunkCountIs(0, cs, 0);
    }
  }

  lemma OneChunkMore(total: nat, cs: nat)
    requires cs >= 1 && total > 0
    ensures ChunkCount(total, cs) == 1 + ChunkCount(total - Min(cs, total), cs)
  {
    var d := total - Min(cs, total) + cs - 1;
    var k := d / cs;
    assert d == k * cs + d % cs;
    assert (k + 1) * cs == k * cs + cs;
    ChunkCountIs(total, cs, k + 1);
  }

  /** [4-byte index, big endian, modulo 2^32][8-byte prefix]. */
  function ChunkNonce(i: nat, prefix: Bytes): (n: Bytes)
    requires |prefix| == PREFIX_SIZE
    ensures |n| == NONCE_SIZE
  {
    BigEndian(i % U32, 4) + prefix
  }

  function NonceIndex(nonce: Bytes): nat
    requires |nonce| == NONCE_SIZE
  {
    FromBigEndian(nonce[..4])
  }

  lemma NonceParts(i: nat, prefix: Bytes)
    requires |prefix| == PREFIX_SIZE
    ensures NonceIndex(ChunkNonce(i, prefix)) == i % U32
    ensures ChunkNonce(i, prefix)[4..] == prefix
  {
    var v := i % U32;
    assert ChunkNonce(i, prefix)[..4] == BigEndian(v, 4);
    BigEndianKeeps(v, 4);
    PowersOf256();
    DivUnique(v, U32, 0, v);
  }

  /** Two chunks of an upload share a nonce exactly when their indices agree modulo 2^32. */
  lemma NoncesDistinctIff(count: nat, prefix: Bytes)
    requires |prefix| == PREFIX_SIZE
    ensures (forall i: nat, j: nat :: i < j < count ==> ChunkNonce(i, prefix) != ChunkNonce(j, prefix)) <==> count <= U32
  {
    if count <= U32 {
      forall i: nat, j: nat | i < j < count
        ensures ChunkNonce(i, prefix) != ChunkNonce(j, prefix)
      {
        NonceParts(i, prefix);
        NonceParts(j, prefix);
        DivUnique(i, U32, 0, i);
        DivUnique(j, U32, 0, j);
      }
    } else {
      assert 0 % U32 == U32 % U32;
      assert ChunkNonce(0, prefix) == ChunkNonce(U32, prefix);
    }
  }

  /** nonce || ciphertext || tag. */
  function Wire(a: Aead, prefix: Bytes, i: nat, chunk: Bytes): Bytes
    requires |prefix| == PREFIX_SIZE
  {
    ChunkNonce(i, prefix) + a.seal(ChunkNonce(i, prefix), chunk)
  }

  function Wires(a: Aead, prefix: Bytes, i: nat, chunks: seq<Bytes>): (ws: seq<Bytes>)
    requires |prefix| == PREFIX_SIZE
    ensures |ws| == |chunks|
    decreases |chunks|
  {
    if chunks == [] then [] else [Wire(a, prefix, i, chunks[0])] + Wires(a, prefix, i + 1, chunks[1..])
  }

  lemma {:induction false} WiresSnoc(a: Aead, prefix: Bytes, i: nat, chunks: seq<Bytes>, x: Bytes)
    requires |prefix| == PREFIX_SIZE
    ensures Wires(a, prefix, i, chunks + [x]) == Wires(a, prefix, i, chunks) + [Wire(a, prefix, i + |chunks|, x)]
    decreases |chunks|
  {
    if chunks == [] {
      assert chunks + [x] == [x];
      assert Wires(a, prefix, i + 1, [x][1..]) == [];
    } else {
      assert (chunks + [x])[1..] == chunks[1..] + [x];
      WiresSnoc(a, prefix, i + 1, chunks[1..], x);
    }
  }

  // ---------------------------------------------------------------- upload

  function SelectChunkSize(size: int): nat {
    if size < 10 * 1024 * 1024 then 256 * 1024
    else if size < 100 * 1024 * 1024 then 512 * 1024
    else 1024 * 1024
  }

  datatype UploadOptions = UploadOptions(ttlSeconds: int, maxDownloads: int, chunkSize: int)

  /** The random values of one upload: drawn by the client (nonces) and by the server (identifiers). */
  datatype Draws = Draws(fnNonce: Bytes, prefix: Bytes, uploadId: Id, fileId: Id, deleteKey: Bytes)

  datatype UploadError = InitFailed | ChunkFailed(i: int) | FinalizeFailed

  function RequestFor(size: int, opts: UploadOptions): InitRequest {
    var cs: nat := if opts.chunkSize <= 0 then SelectChunkSize(size) else opts.chunkSize;
    InitRequest(
      ExpectedChunks(size, cs),
      size, if opts.ttlSeconds <= 0 then 24 * 3600 else opts.ttlSeconds, opts.maxDownloads, cs)
  }

  /** The chunk size of an upload: the one asked for, else by the size of the file; never above 2 MiB. */
  lemma ChunkSizeOf(size: int, opts: UploadOptions)
    ensures var cs := NegotiatedChunkSize(RequestFor(size, opts).chunkSize);
            && (0 < opts.chunkSize <= 2097152 ==> cs == opts.chunkSize)
            && (opts.chunkSize > 2097152 ==> cs == 2097152)
            && (opts.chunkSize <= 0 ==>
                  cs == if size < 10485760 then 262144 else if size < 104857600 then 524288 else 1048576)
  {
  }

  /** With a chunk size the server does not clamp, a request is accepted whenever its size and authorisation are. */
  lemma HonestRequestAccepted(cfg: Config, authorised: bool, size: int, opts: UploadOptions)
    requires opts.chunkSize <= 2097152
    ensures InitAccepts(cfg, authorised, RequestFor(size, opts)) <==> authorised && 0 < size <= cfg.maxSize
  {
    ChunkSizeOf(size, opts);
  }

  /** A pending upload holding the first k chunks of the encrypted stream. */
  ghost predicate HoldsChunks(p: Pending, a: Aead, prefix: Bytes, chunks: seq<Bytes>, cs: nat, total: int)
    requires |prefix| == PREFIX_SIZE
  {
    && p.enc == Flatten(Wires(a, prefix, 0, chunks))
    && p.meta.chunksWritten == |chunks|
    && p.meta.chunkSize == cs && p.meta.chunksTotal == total
  }

  /** The state of the upload loop: what is left to read follows the chunks sent so far. */
  ghost predicate UploadLoop(store: Store, a: Aead, d: Draws, plain: Bytes, cs: nat, total: int, i: nat, pos: nat)
    requires |d.prefix| == PREFIX_SIZE && cs >= 1
    reads store
  {
    && d.uploadId in store.pending
    && pos <= |plain|
    && i <= |ChunksOf(plain, cs)|
    && HoldsChunks(store.pending[d.uploadId], a, d.prefix, ChunksOf(plain, cs)[..i], cs, total)
    && ChunksOf(plain, cs)[i..] == ChunksOf(plain[pos..], cs)
  }

  method UploadChunks(store: Store, a: Aead, d: Draws, plain: Bytes, cs: nat, ghost total: int)
    returns (err: Option<UploadError>)
    requires Correct(a) && cs >= 1 && |d.prefix| == PREFIX_SIZE && ValidId(d.uploadId)
    requires UploadLoop(store, a, d, plain, cs, total, 0, 0)
    modifies store
    ensures err.None?
    ensures d.uploadId in store.pending && d.uploadId in old(store.pending)
    ensures HoldsChunks(store.pending[d.uploadId], a, d.prefix, ChunksOf(plain, cs), cs, total)
    ensures store.pending[d.uploadId].meta ==
              old(store.pending[d.uploadId]).meta.(chunksWritten := |ChunksOf(plain, cs)|)
    ensures store.pending == old(store.pending)[d.uploadId := store.pending[d.uploadId]]
    ensures store.complete == old(store.complete)
  {
    hide ChunkNonce, ChunksOf, Wires, Flatten;
    var i, pos := 0, 0;
    while true
      invariant UploadLoop(store, a, d, plain, cs, total, i, pos)
      invariant store.pending == old(store.pending)[d.uploadId := store.pending[d.uploadId]]
      invariant store.pending[d.uploadId].meta == old(store.pending[d.uploadId]).meta.(chunksWritten := i)
      invariant store.complete == old(store.complete)
      decreases |plain| - pos
    {
      var n := Min(cs, |plain| - pos);  // io.ReadFull: short only at the end of the file
      if n == 0 {
        break;
      }
      ghost var before := pos;
      var chunk := plain[pos..pos + n];
      var nonce := ChunkNonce(i, d.prefix);
      var wire := nonce + a.seal(nonce, chunk);
      ChunkStep(a, d.prefix, plain, cs, i, pos);
      var reply := HandleUploadChunk(store, d.uploadId, i, wire);
      if reply.ChunkRefused? {
        return Some(ChunkFailed(i));
      }
      i := i + 1;
      pos := pos + n;
      if n < cs {
        break;
      }
    }
    NothingLeft(plain, cs, i, pos);
    return None;
  }

  lemma NothingLeft(plain: Bytes, cs: nat, i: nat, pos: nat)
    requires cs >= 1 && pos == |plain| && i <= |ChunksOf(plain, cs)|
    requires ChunksOf(plain, cs)[i..] == ChunksOf(plain[pos..], cs)
    ensures ChunksOf(plain, cs)[..i] == ChunksOf(plain, cs)
  {
    assert ChunksOf(plain[pos..], cs) == [];
    assert |ChunksOf(plain, cs)[i..]| == |ChunksOf(plain, cs)| - i;
  }

  lemma ChunkStep(a: Aead, prefix: Bytes, plain: Bytes, cs: nat, i: nat, pos: nat)
    requires Correct(a) && cs >= 1 && |prefix| == PREFIX_SIZE
    requires pos < |plain| && i <= |ChunksOf(plain, cs)|
    requires ChunksOf(plain, cs)[i..] == ChunksOf(plain[pos..], cs)
    ensures var n := Min(cs, |plain| - pos);
            var chunk := plain[pos..pos + n];
            var all := ChunksOf(plain, cs);
            && i < |all| && all[i] == chunk
            && all[i + 1..] == ChunksOf(plain[pos + n..], cs)
            && |Wire(a, prefix, i, chunk)| <= NONCE_SIZE + cs + TAG_SIZE
            && Flatten(Wires(a, prefix, 0, all[..i + 1])) ==
               Flatten(Wires(a, prefix, 0, all[..i])) + Wire(a, prefix, i, chunk)
  {
    var n := Min(cs, |plain| - pos);
    var rest := plain[pos..];
    assert rest[..n] == plain[pos..pos + n] && rest[n..] == plain[pos + n..];
    assert OpensSealed(a, ChunkNonce(i, prefix), plain[pos..pos + n]);
    var all := ChunksOf(plain, cs);
    var tail := ChunksOf(rest, cs);
    assert all[i..][0] == tail[0] && all[i..][1..] == all[i + 1..];
    assert all[..i + 1] == all[..i] + [all[i]];
    WiresSnoc(a, prefix, 0, all[..i], all[i]);
    FlattenSnoc(Wires(a, prefix, 0, all[..i]), Wire(a, prefix, i, all[i]));
  }

  /** Does the file really have as many chunks as were announced for its declared size? */
  predicate CountHolds(plain: Bytes, size: int, opts: UploadOptions) {
    var req := RequestFor(size, opts);
    |ChunksOf(plain, NegotiatedChunkSize(req.chunkSize))| == req.chunksTotal
  }

  /**
   * The whole upload, client and server together. It succeeds exactly when the server grants the request
   * and the file has the announced number of chunks; then the complete file is the encrypted chunks in
   * order, and nothing else in the store has changed.
   */
  method Upload(
    store: Store, cfg: Config, authorised: bool, a: Aead, d: Draws,
    plain: Bytes, filename: Bytes, size: int, opts: UploadOptions, sha: Bytes -> Bytes, now: int)
    returns (err: Option<UploadError>)
    requires Correct(a) && Sensible(cfg) && opts.ttlSeconds < I64_LIMIT
    requires |d.prefix| == PREFIX_SIZE && |d.fnNonce| == NONCE_SIZE && ValidId(d.uploadId) && ValidId(d.fileId)
    requires d.uploadId !in store.pending && d.fileId !in store.complete
    modifies store
    ensures err.None? <==> InitAccepts(cfg, authorised, RequestFor(size, opts)) && CountHolds(plain, size, opts)
    ensures err == Some(InitFailed) <==> !InitAccepts(cfg, authorised, RequestFor(size, opts))
    ensures err.Some? ==> store.complete == old(store.complete) && err.value in {InitFailed, FinalizeFailed}
    ensures err == Some(InitFailed) ==> store.pending == old(store.pending)
    ensures err.None? ==>
              && store.pending == old(store.pending)
              && d.fileId in store.complete && store.complete - {d.fileId} == old(store.complete)
              && var f := store.complete[d.fileId];
                 var cs := NegotiatedChunkSize(RequestFor(size, opts).chunkSize);
                 && f.enc == Flatten(Wires(a, d.prefix, 0, ChunksOf(plain, cs)))
                 && f.meta.encryptedSize == |f.enc| && f.meta.shaCipher == sha(f.enc)
                 && f.meta.chunkSize == cs && f.meta.chunksTotal == |ChunksOf(plain, cs)| && f.meta.totalSize == size
                 && f.meta.fileNameNonce == d.fnNonce && f.meta.fileNameEnc == a.seal(d.fnNonce, filename)
                 && f.meta.deleteKey == d.deleteKey
                 && LimitFor(cfg.maxDownloads, opts.maxDownloads, f.meta.maxDownloads)
                 && f.meta.downloadsLeft == (if f.meta.maxDownloads == 0 then -1 else f.meta.maxDownloads)
                 && var lifetime := (if opts.ttlSeconds > 0 then opts.ttlSeconds else 86400) * NS_PER_SECOND;
                    && (cfg.maxTTL > 0 ==> f.meta.expiresAt == now + Min(lifetime, cfg.maxTTL))
                    && (cfg.maxTTL == 0 ==> f.meta.expiresAt == now + Wrap64(lifetime))
  {
    hide Wires, ChunkNonce, InitAccepts, ExpectedChunks, NegotiatedChunkSize;
    var req := RequestFor(size, opts);
    var fnEnc := a.seal(d.fnNonce, filename);
    var granted := HandleUploadInit(store, cfg, authorised, req, d.uploadId, now);
    if !granted.Granted? {
      return Some(InitFailed);
    }
    var cs: nat := granted.chunkSize;
    assert UploadLoop(store, a, d, plain, cs, req.chunksTotal, 0, 0) by {
      EmptyUpload(a, d.prefix, plain, cs);
    }
    err := UploadChunks(store, a, d, plain, cs, req.chunksTotal);
    var fin := store.FinalizeUpload(
      d.uploadId, fnEnc, d.fnNonce, sha(store.pending[d.uploadId].enc), d.fileId, d.deleteKey);
    if fin.Some? {
      return Some(FinalizeFailed);
    }
    return None;
  }

  lemma EmptyUpload(a: Aead, prefix: Bytes, plain: Bytes, cs: nat)
    requires |prefix| == PREFIX_SIZE && cs >= 1
    ensures Flatten(Wires(a, prefix, 0, ChunksOf(plain, cs)[..0])) == []
    ensures ChunksOf(plain, cs)[0..] == ChunksOf(plain[0..], cs)
  {
    assert plain[0..] == plain;
  }

  /** With the real size declared, the announced count is the number of chunks sent unless rounding up overflows. */
  lemma HonestSizeCounts(cfg: Config, authorised: bool, plain: Bytes, opts: UploadOptions)
    requires InitAccepts(cfg, authorised, RequestFor(|plain|, opts))
    requires |plain| < I64_LIMIT
    ensures CountHolds(plain, |plain|, opts) <==>
              |plain| + NegotiatedChunkSize(RequestFor(|plain|, opts).chunkSize) - 1 < I64_LIMIT
  {
    var cs := NegotiatedChunkSize(RequestFor(|plain|, opts).chunkSize);
    ChunksRejoin(plain, cs);
    ExpectedChunksIff(|plain|, cs);
  }

  // ---------------------------------------------------------------- download

  datatype DownloadError = BufferPanic | ReadFailed(i: nat) | TooShort(i: nat) | WrongOrder(i: nat) | AuthFailed(i: nat)

  datatype Fetch = Fetch(written: Bytes, err: Option<DownloadError>)

  /** Why the frame at the head of the body is not accepted as chunk i, if it is not. */
  function FrameError(a: Aead, body: Bytes, stride: nat, i: nat, prefix: Bytes): Option<DownloadError>
  {
    var n := Min(stride, |body|);
    if n == 0 && stride > 0 then Some(ReadFailed(i))
    else if n < NONCE_SIZE then Some(TooShort(i))
    else
      var nonce := body[..NONCE_SIZE];
      if NonceIndex(nonce) != i % U32 || (i > 0 && nonce[4..] != prefix) then Some(WrongOrder(i))
      else if a.open(nonce, body[NONCE_SIZE..n]).None? then Some(AuthFailed(i))
      else None
  }

  /** What Download writes from chunk i on; prefix is the one fixed by chunk 0. */
  function FetchFrom(a: Aead, body: Bytes, stride: nat, i: nat, total: int, prefix: Bytes): Fetch
    decreases total - i
  {
    if i >= total then Fetch([], None)
    else
      var e := FrameError(a, body, stride, i, prefix);
      if e.Some? then Fetch([], e)
      else
        var n := Min(stride, |body|);
        var rest := FetchFrom(a, body[n..], stride, i + 1, total, body[4..NONCE_SIZE]);
        Fetch(a.open(body[..NONCE_SIZE], body[NONCE_SIZE..n]).value + rest.written, rest.err)
  }

  /** One iteration of the download loop: read a frame into the buffer, check its order, open it. */
  method ReadFrame(a: Aead, rest: Bytes, stride: nat, i: nat, known: Bytes)
    returns (n: nat, prefix: Bytes, chunk: Bytes, err: Option<DownloadError>)
    ensures n == Min(stride, |rest|)
    ensures err == FrameError(a, rest, stride, i, known)
    ensures err.None? ==>
              n >= NONCE_SIZE && prefix == rest[4..NONCE_SIZE]
              && a.open(rest[..NONCE_SIZE], rest[NONCE_SIZE..n]) == Some(chunk)
  {
    n, prefix, chunk := Min(stride, |rest|), known, [];
    if n == 0 && stride > 0 {
      return n, prefix, chunk, Some(ReadFailed(i));
    }
    var wire := rest[..n];
    if |wire| < NONCE_SIZE {
      return n, prefix, chunk, Some(TooShort(i));
    }
    var nonce, ciphertext := wire[..NONCE_SIZE], wire[NONCE_SIZE..];
    assert nonce == rest[..NONCE_SIZE] && ciphertext == rest[NONCE_SIZE..n] && nonce[4..] == rest[4..NONCE_SIZE];
    if i == 0 {
      prefix := nonce[4..];
    }
    if NonceIndex(nonce) != i % U32 || nonce[4..] != prefix {
      return n, prefix, chunk, Some(WrongOrder(i));
    }
    var plain := a.open(nonce, ciphertext);
    if plain.None? {
      return n, prefix, chunk, Some(AuthFailed(i));
    }
    return n, prefix, plain.value, None;
  }

  /** The download loop over a response body, with the sizes the response headers give. */
  method Download(a: Aead, body: Bytes, chunkSize: int, chunksTotal: int) returns (written: Bytes, err: Option<DownloadError>)
    ensures chunkSize < -(NONCE_SIZE + TAG_SIZE) ==> err == Some(BufferPanic) && written == []
    ensures chunkSize >= -(NONCE_SIZE + TAG_SIZE) ==>
              Fetch(written, err) == FetchFrom(a, body, NONCE_SIZE + chunkSize + TAG_SIZE, 0, chunksTotal, [])
  {
    hide FrameError;
    written := [];
    if chunkSize < -(NONCE_SIZE + TAG_SIZE) {
      return [], Some(BufferPanic);  // make with a negative length
    }
    var stride: nat := NONCE_SIZE + chunkSize + TAG_SIZE;
    var rest, i := body, 0;
    var noncePrefix: Bytes := [];
    while i < chunksTotal
      invariant 0 <= i
      invariant var f := FetchFrom(a, rest, stride, i, chunksTotal, noncePrefix);
                FetchFrom(a, body, stride, 0, chunksTotal, []) == Fetch(written + f.written, f.err)
    {
      var n, prefix, chunk, e := ReadFrame(a, rest, stride, i, noncePrefix);
      if e.Some? {
        return written, e;
      }
      written := written + chunk;
      rest, i, noncePrefix := rest[n..], i + 1, prefix;
    }
    return written, None;
  }

  // ---------------------------------------------------------------- round trip

  /** One sealed chunk at the head of the body is accepted and opened. */
  lemma SealedFrame(a: Aead, prefix: Bytes, i: nat, chunk: Bytes, more: Bytes, cs: nat, known: Bytes)
    requires |prefix| == PREFIX_SIZE && OpensSealed(a, ChunkNonce(i, prefix), chunk) && 1 <= |chunk| <= cs
    requires |chunk| < cs ==> more == []
    requires i > 0 ==> known == prefix
    ensures var body := Wire(a, prefix, i, chunk) + more;
            var stride := NONCE_SIZE + cs + TAG_SIZE;
            var n := Min(stride, |body|);
            && n == |Wire(a, prefix, i, chunk)| >= NONCE_SIZE && body[n..] == more
            && FrameError(a, body, stride, i, known).None?
            && a.open(body[..NONCE_SIZE], body[NONCE_SIZE..n]) == Some(chunk)
            && body[4..NONCE_SIZE] == prefix
  {
    var nonce := ChunkNonce(i, prefix);
    var body := Wire(a, prefix, i, chunk) + more;
    var n := Min(NONCE_SIZE + cs + TAG_SIZE, |body|);
    NonceParts(i, prefix);
    assert body[..NONCE_SIZE] == nonce;
    assert body[NONCE_SIZE..n] == a.seal(nonce, chunk);
    assert body[4..NONCE_SIZE] == nonce[4..];
  }

  lemma {:induction false} WiresOpen(a: Aead, prefix: Bytes, i: nat, chunks: seq<Bytes>, cs: nat, known: Bytes)
    requires |prefix| == PREFIX_SIZE && cs >= 1
    requires forall k :: 0 <= k < |chunks| ==> OpensSealed(a, ChunkNonce(i + k, prefix), chunks[k])
    requires forall k :: 0 <= k < |chunks| ==> 1 <= |chunks[k]| <= cs && (k < |chunks| - 1 ==> |chunks[k]| == cs)
    requires i > 0 ==> known == prefix
    ensures FetchFrom(a, Flatten(Wires(a, prefix, i, chunks)), NONCE_SIZE + cs + TAG_SIZE, i, i + |chunks|, known)
            == Fetch(Flatten(chunks), None)
    decreases |chunks|
  {
    if chunks != [] {
      hide FrameError, Wire, OpensSealed, ChunkNonce;
      assert forall k :: 0 <= k < |chunks[1..]| ==> chunks[1..][k] == chunks[k + 1] && i + 1 + k == i + (k + 1);
      var more := Flatten(Wires(a, prefix, i + 1, chunks[1..]));
      assert Wires(a, prefix, i, chunks)[1..] == Wires(a, prefix, i + 1, chunks[1..]);
      assert Flatten(Wires(a, prefix, i, chunks)) == Wire(a, prefix, i, chunks[0]) + more;
      assert |chunks| == 1 ==> Wires(a, prefix, i + 1, chunks[1..]) == [];
      SealedFrame(a, prefix, i, chunks[0], more, cs, known);
      WiresOpen(a, prefix, i + 1, chunks[1..], cs, prefix);
    }
  }

  /**
   * Upload then download is the identity: for every non-empty file the server accepts, the upload
   * completes, and downloading it gives back the same bytes under the same name.
   */
  method UploadThenDownload(
    store: Store, cfg: Config, authorised: bool, a: Aead, d: Draws,
    plain: Bytes, filename: Bytes, opts: UploadOptions, sha: Bytes -> Bytes, now: int, later: int)
    returns (written: Bytes, name: Option<Bytes>)
    requires Correct(a) && Sensible(cfg) && opts.ttlSeconds < I64_LIMIT
    requires |d.prefix| == PREFIX_SIZE && |d.fnNonce| == NONCE_SIZE && ValidId(d.uploadId) && ValidId(d.fileId)
    requires d.uploadId !in store.pending && d.fileId !in store.complete
    requires InitAccepts(cfg, authorised, RequestFor(|plain|, opts))
    requires |plain| + NegotiatedChunkSize(RequestFor(|plain|, opts).chunkSize) - 1 < I64_LIMIT
    modifies store
    ensures d.fileId in store.complete
    ensures later <= store.complete[d.fileId].meta.expiresAt ==> written == plain && name == Some(filename)
    ensures later > store.complete[d.fileId].meta.expiresAt ==> written == [] && name == None
  {
    HonestSizeCounts(cfg, authorised, plain, opts);
    hide InitAccepts, CountHolds, RequestFor, Correct;
    var err := Upload(store, cfg, authorised, a, d, plain, filename, |plain|, opts, sha, now);
    var r, e := store.OpenDownload(d.fileId, later);
    if e.Some? {
      return [], None;
    }
    var f := r.value;
    written, err := DownloadStored(a, f, d, plain);
    name := a.open(f.meta.fileNameNonce, f.meta.fileNameEnc);
    assert OpensSealed(a, d.fnNonce, filename) by { OpensAny(a, d.fnNonce, filename); }
  }

  method DownloadStored(a: Aead, f: Stored, ghost d: Draws, ghost plain: Bytes)
    returns (written: Bytes, err: Option<UploadError>)
    requires Correct(a) && |d.prefix| == PREFIX_SIZE && f.meta.chunkSize >= 1
    requires f.enc == Flatten(Wires(a, d.prefix, 0, ChunksOf(plain, f.meta.chunkSize)))
    requires f.meta.chunksTotal == |ChunksOf(plain, f.meta.chunkSize)|
    ensures written == plain
  {
    ghost var cs: nat := f.meta.chunkSize;
    WiresOpen(a, d.prefix, 0, ChunksOf(plain, cs), cs, []);
    ChunksRejoin(plain, cs);
    var dlErr;
    written, dlErr := Download(a, f.enc, f.meta.chunkSize, f.meta.chunksTotal);
    err := None;
  }

  /** What a damaged body is refused for: missing, cut inside the nonce, out of place, of another upload, or not opening. */
  lemma DamagedFrames(a: Aead, body: Bytes, stride: nat, i: nat, known: Bytes)
    requires stride >= NONCE_SIZE
    ensures body == [] ==> FrameError(a, body, stride, i, known) == Some(ReadFailed(i))
    ensures 0 < |body| < 12 ==> FrameError(a, body, stride, i, known) == Some(TooShort(i))
    ensures |body| >= 12 && NonceIndex(body[..12]) != i % U32 ==> FrameError(a, body, stride, i, known) == Some(WrongOrder(i))
    ensures |body| >= 12 && i > 0 && body[4..12] != known ==> FrameError(a, body, stride, i, known) == Some(WrongOrder(i))
    ensures |body| >= 12 && NonceIndex(body[..12]) == i % U32 && (i > 0 ==> body[4..12] == known)
            && a.open(body[..12], body[12..Min(stride, |body|)]) == None ==>
              FrameError(a, body, stride, i, known) == Some(AuthFailed(i))
  {
    if |body| >= 12 {
      assert body[..NONCE_SIZE][4..] == body[4..12];
    }
  }

  /** A chunk of this very upload in the place of another is out of order, unless their indices agree modulo 2^32. */
  lemma MisplacedChunk(a: Aead, prefix: Bytes, j: nat, chunk: Bytes, more: Bytes, stride: nat, i: nat, known: Bytes)
    requires |prefix| == PREFIX_SIZE && stride >= NONCE_SIZE && j % U32 != i % U32
    ensures FrameError(a, Wire(a, prefix, j, chunk) + more, stride, i, known) == Some(WrongOrder(i))
  {
    var body := Wire(a, prefix, j, chunk) + more;
    assert body[..NONCE_SIZE] == ChunkNonce(j, prefix);
    NonceParts(j, prefix);
    DamagedFrames(a, body, stride, i, known);
  }

  // ---------------------------------------------------------------- a hostile server

  /** Everything sealed under the key of this upload: its chunks and its file name. */
  ghost predicate SealedHere(a: Aead, prefix: Bytes, chunks: seq<Bytes>, fnNonce: Bytes, filename: Bytes, nonce: Bytes, ct: Bytes)
    requires |prefix| == PREFIX_SIZE
  {
    || (nonce == fnNonce && ct == a.seal(fnNonce, filename))
    || (exists i :: 0 <= i < |chunks| && nonce == ChunkNonce(i, prefix) && ct == a.seal(nonce, chunks[i]))
  }

  /** What was sealed here opens to what was sealed. */
  ghost predicate OpensOwn(a: Aead, prefix: Bytes, chunks: seq<Bytes>, fnNonce: Bytes, filename: Bytes)
    requires |prefix| == PREFIX_SIZE
  {
    && OpensSealed(a, fnNonce, filename)
    && forall i :: 0 <= i < |chunks| ==> OpensSealed(a, ChunkNonce(i, prefix), chunks[i])
  }

  /** Unforgeability: nothing else opens. */
  ghost predicate OpensOnly(a: Aead, prefix: Bytes, chunks: seq<Bytes>, fnNonce: Bytes, filename: Bytes)
    requires |prefix| == PREFIX_SIZE
  {
    forall nonce, ct :: a.open(nonce, ct).Some? ==> SealedHere(a, prefix, chunks, fnNonce, filename, nonce, ct)
  }

  /** The cipher as this upload's key leaves it: it opens what the upload sealed, and nothing else. */
  ghost predicate KeyOf(a: Aead, prefix: Bytes, chunks: seq<Bytes>, fnNonce: Bytes, filename: Bytes)
    requires |prefix| == PREFIX_SIZE
  {
    OpensOwn(a, prefix, chunks, fnNonce, filename) && OpensOnly(a, prefix, chunks, fnNonce, filename)
  }

  /** For every upload there is such a cipher. */
  lemma KeyExists(prefix: Bytes, chunks: seq<Bytes>, fnNonce: Bytes, filename: Bytes)
    requires |prefix| == PREFIX_SIZE
    ensures exists a: Aead :: KeyOf(a, prefix, chunks, fnNonce, filename)
  {
    var tag: Bytes := seq(TAG_SIZE, _ => 0);
    var seal: (Bytes, Bytes) -> Bytes := (n, p) => p + tag;
    var blind := Aead(seal, (n, ct) => None);
    var open: (Bytes, Bytes) -> Option<Bytes> := (n: Bytes, ct: Bytes) =>
      if |ct| >= TAG_SIZE && SealedHere(blind, prefix, chunks, fnNonce, filename, n, ct)
      then Some(ct[..|ct| - TAG_SIZE]) else None;
    var a := Aead(seal, open);
    forall n, ct
      ensures SealedHere(a, prefix, chunks, fnNonce, filename, n, ct)
          <==> SealedHere(blind, prefix, chunks, fnNonce, filename, n, ct)
    {
      assert a.seal(fnNonce, filename) == blind.seal(fnNonce, filename);
      assert forall i :: 0 <= i < |chunks| ==> a.seal(n, chunks[i]) == blind.seal(n, chunks[i]);
    }
    assert a.seal(fnNonce, filename)[..|filename|] == filename;
    forall i | 0 <= i < |chunks|
      ensures OpensSealed(a, ChunkNonce(i, prefix), chunks[i])
    {
      var nonce := ChunkNonce(i, prefix);
      assert SealedHere(a, prefix, chunks, fnNonce, filename, nonce, a.seal(nonce, chunks[i]));
      assert a.seal(nonce, chunks[i])[..|chunks[i]|] == chunks[i];
    }
    assert KeyOf(a, prefix, chunks, fnNonce, filename);
  }

  /** The round trip's hypothesis can be met too, though not together with unforgeability. */
  lemma CorrectExists()
    ensures exists a: Aead :: Correct(a)
  {
    var tag: Bytes := seq(TAG_SIZE, _ => 0);
    var a := Aead((n, p) => p + tag, (n, ct: Bytes) => if |ct| >= TAG_SIZE then Some(ct[..|ct| - TAG_SIZE]) else None);
    forall n: Bytes, p: Bytes
      ensures OpensSealed(a, n, p)
    {
      assert a.seal(n, p)[..|p|] == p;
    }
    assert Correct(a);
  }

  /** The random nonce of the file name is not one the order check could accept. */
  predicate NameNonceApart(fnNonce: Bytes, prefix: Bytes) {
    |fnNonce| == NONCE_SIZE && NonceIndex(fnNonce) != 0 && fnNonce[4..] != prefix
  }

  /** An accepted frame is chunk i of this upload and carries its prefix. */
  lemma AcceptedIsChunk(a: Aead, prefix: Bytes, chunks: seq<Bytes>, fnNonce: Bytes, filename: Bytes,
                        body: Bytes, stride: nat, i: nat, known: Bytes)
    requires |prefix| == PREFIX_SIZE && KeyOf(a, prefix, chunks, fnNonce, filename)
    requires NameNonceApart(fnNonce, prefix) && |chunks| < U32 && i <= |chunks|
    requires i > 0 ==> known == prefix
    requires FrameError(a, body, stride, i, known).None?
    ensures i < |chunks|
    ensures var n := Min(stride, |body|);
            n >= NONCE_SIZE && a.open(body[..NONCE_SIZE], body[NONCE_SIZE..n]) == Some(chunks[i])
    ensures |body| >= NONCE_SIZE && body[4..NONCE_SIZE] == prefix
  {
    var n := Min(stride, |body|);
    var nonce, ct := body[..NONCE_SIZE], body[NONCE_SIZE..n];
    assert SealedHere(a, prefix, chunks, fnNonce, filename, nonce, ct);
    DivUnique(i, U32, 0, i);
    assert nonce != fnNonce;
    var k :| 0 <= k < |chunks| && nonce == ChunkNonce(k, prefix) && ct == a.seal(nonce, chunks[k]);
    NonceParts(k, prefix);
    DivUnique(k, U32, 0, k);
    assert body[4..NONCE_SIZE] == nonce[4..];
  }

  /**
   * Order check: whatever body and headers a server returns, what Download has written when it stops, at
   * any point, is a prefix of the original file made of whole chunks 0 .. k-1.
   */
  lemma {:induction false} OnlyWholeChunksInOrder(
    a: Aead, prefix: Bytes, chunks: seq<Bytes>, fnNonce: Bytes, filename: Bytes,
    body: Bytes, stride: nat, i: nat, total: int, known: Bytes)
    requires |prefix| == PREFIX_SIZE && KeyOf(a, prefix, chunks, fnNonce, filename)
    requires NameNonceApart(fnNonce, prefix) && |chunks| < U32 && i <= |chunks|
    requires i > 0 ==> known == prefix
    ensures exists k :: i <= k <= |chunks|
              && FetchFrom(a, body, stride, i, total, known).written == Flatten(chunks[i..k])
              && (FetchFrom(a, body, stride, i, total, known).err.None? && i <= total ==> k == total)
    decreases total - i
  {
    if i >= total || FrameError(a, body, stride, i, known).Some? {
      assert chunks[i..i] == [];
      assert Flatten(chunks[i..i]) == [];
    } else {
      hide KeyOf;
      AcceptedIsChunk(a, prefix, chunks, fnNonce, filename, body, stride, i, known);
      var n := Min(stride, |body|);
      OnlyWholeChunksInOrder(a, prefix, chunks, fnNonce, filename, body[n..], stride, i + 1, total, prefix);
      var rest := FetchFrom(a, body[n..], stride, i + 1, total, prefix);
      var k :| i + 1 <= k <= |chunks| && rest.written == Flatten(chunks[i + 1..k])
        && (rest.err.None? && i + 1 <= total ==> k == total);
      assert chunks[i..k][1..] == chunks[i + 1..k];
      assert FetchFrom(a, body, stride, i, total, known).written == Flatten(chunks[i..k]);
    }
  }

  /**
   * In terms of the file: whatever a server returns, the bytes written are a prefix of it. When no error is
   * reported, they are the whole file if and only if the announced number of chunks is the true one.
   */
  lemma WrittenIsPrefix(
    a: Aead, prefix: Bytes, plain: Bytes, cs: nat, fnNonce: Bytes, filename: Bytes, body: Bytes, stride: nat, total: int)
    requires cs >= 1 && |prefix| == PREFIX_SIZE && KeyOf(a, prefix, ChunksOf(plain, cs), fnNonce, filename)
    requires NameNonceApart(fnNonce, prefix) && |ChunksOf(plain, cs)| < U32
    ensures var f := FetchFrom(a, body, stride, 0, total, []);
            && f.written <= plain
            && (f.err.None? ==> (f.written == plain <==> (if total < 0 then 0 else total) == |ChunksOf(plain, cs)|))
  {
    hide KeyOf, NameNonceApart, ChunksOf, FrameError;
    var chunks := ChunksOf(plain, cs);
    var f := FetchFrom(a, body, stride, 0, total, []);
    ChunksRejoin(plain, cs);
    if total < 0 {
      FirstChunks(chunks, 0);
    } else {
      hide FetchFrom;
      OnlyWholeChunksInOrder(a, prefix, chunks, fnNonce, filename, body, stride, 0, total, []);
      var k :| 0 <= k <= |chunks| && f.written == Flatten(chunks[0..k]) && (f.err.None? && 0 <= total ==> k == total);
      FirstChunks(chunks, k);
    }
  }

  /** The first k of non-empty chunks rejoin to a prefix, and to everything only if k is all of them. */
  lemma FirstChunks(chunks: seq<Bytes>, k: nat)
    requires k <= |chunks| && forall i :: 0 <= i < |chunks| ==> 1 <= |chunks[i]|
    ensures Flatten(chunks[0..k]) <= Flatten(chunks)
    ensures k == |chunks| <==> Flatten(chunks[0..k]) == Flatten(chunks)
    ensures Flatten(chunks[0..0]) == []
  {
    assert chunks == chunks[0..k] + chunks[k..];
    FlattenAppend(chunks[0..k], chunks[k..]);
    assert k == |chunks| ==> chunks[0..k] == chunks;
    assert k < |chunks| ==> Flatten(chunks[k..]) == chunks[k] + Flatten(chunks[k..][1..]);
  }

  /** A server that leaves out the last chunks and announces only the others is believed: a shorter file, and no error. */
  lemma ShorterTotalIsBelieved(a: Aead, prefix: Bytes, plain: Bytes, cs: nat, fnNonce: Bytes, filename: Bytes, total: nat)
    requires cs >= 1 && |prefix| == PREFIX_SIZE && KeyOf(a, prefix, ChunksOf(plain, cs), fnNonce, filename)
    requires total < |ChunksOf(plain, cs)|
    ensures var sent := ChunksOf(plain, cs)[..total];
            var f := FetchFrom(a, Flatten(Wires(a, prefix, 0, sent)), NONCE_SIZE + cs + TAG_SIZE, 0, total, []);
            f == Fetch(Flatten(sent), None) && f.written != plain
  {
    hide ChunkNonce, FetchFrom, OpensOnly;
    var chunks := ChunksOf(plain, cs);
    WiresOpen(a, prefix, 0, chunks[..total], cs, []);
    ChunksRejoin(plain, cs);
    FirstChunks(chunks, total);
    assert chunks[0..total] == chunks[..total];
  }
}
