/** Server side of scheduled transfers: the upload negotiation and the store of pending and complete files. */
module ScheduleStore {
  import opened Prelude

  const CHUNK_SIZE := 256 * 1024
  const MAX_CHUNK_SIZE := 2 * 1024 * 1024
  const NONCE_SIZE := 12
  const TAG_SIZE := 16
  const ID_LEN := 32
  const NS_PER_SECOND := 1_000_000_000
  const PENDING_LIFETIME := 24 * 3600 * NS_PER_SECOND

  type Id = Bytes

  predicate ValidId(id: Id) {
    |id| == ID_LEN && forall i :: 0 <= i < |id| ==> 0x30 <= id[i] <= 0x39 || 0x61 <= id[i] <= 0x66
  }

  datatype UploadMeta = UploadMeta(
    chunksTotal: int, chunkSize: int, chunksWritten: nat, totalSize: int,
    expiresAt: int, maxDownloads: nat, createdAt: int)

  datatype Pending = Pending(meta: UploadMeta, enc: Bytes)

  datatype FileMeta = FileMeta(
    fileNameEnc: Bytes, fileNameNonce: Bytes, totalSize: int, encryptedSize: nat, shaCipher: Bytes,
    chunksTotal: int, chunkSize: int, expiresAt: int, maxDownloads: nat, downloadsLeft: int,
    deleteKey: Bytes, createdAt: int)

  datatype Stored = Stored(meta: FileMeta, enc: Bytes)

  datatype StoreError = NotFound | OutOfOrder | TooLarge | Incomplete | Expired | LimitReached | BadKey

  /** What one chunk does to a pending upload. */
  function Appended(p: Pending, data: Bytes): Pending {
    Pending(p.meta.(chunksWritten := p.meta.chunksWritten + 1), p.enc + data)
  }

  function AppendError(pending: map<Id, Pending>, id: Id, index: int, data: Bytes): Option<StoreError> {
    if !ValidId(id) || id !in pending then Some(NotFound)
    else if index != pending[id].meta.chunksWritten then Some(OutOfOrder)
    else if |data| > NONCE_SIZE + pending[id].meta.chunkSize + TAG_SIZE then Some(TooLarge)
    else None
  }

  /** A finished upload: its bytes unchanged, one download left per permitted download, -1 for unlimited. */
  function Finished(p: Pending, nameEnc: Bytes, nameNonce: Bytes, sha: Bytes, deleteKey: Bytes): Stored {
    var m := p.meta;
    Stored(
      FileMeta(nameEnc, nameNonce, m.totalSize, |p.enc|, sha, m.chunksTotal, m.chunkSize, m.expiresAt,
               m.maxDownloads, if m.maxDownloads == 0 then -1 else m.maxDownloads, deleteKey, m.createdAt),
      p.enc)
  }

  function OpenError(complete: map<Id, Stored>, id: Id, now: int): Option<StoreError> {
    if !ValidId(id) || id !in complete then Some(NotFound)
    else if now > complete[id].meta.expiresAt then Some(Expired)
    else if complete[id].meta.downloadsLeft == 0 then Some(LimitReached)
    else None
  }

  function Counted(f: Stored): Stored {
    if f.meta.downloadsLeft > 0 then Stored(f.meta.(downloadsLeft := f.meta.downloadsLeft - 1), f.enc) else f
  }

  predicate Removable(f: Stored, now: int) {
    now > f.meta.expiresAt || f.meta.downloadsLeft == 0
  }

  predicate Stale(p: Pending, now: int) {
    p.meta.createdAt < now - PENDING_LIFETIME
  }

  class Store {
    var pending: map<Id, Pending>
    var complete: map<Id, Stored>

    constructor ()
      ensures pending == map[] && complete == map[]
    {
      pending, complete := map[], map[];
    }

    method InitUpload(id: Id, chunksTotal: int, totalSize: int, expires: int, maxDownloads: nat, chunkSize: int, now: int)
      modifies this
      ensures pending == old(pending)[
                id := Pending(UploadMeta(chunksTotal, chunkSize, 0, totalSize, expires, maxDownloads, now), [])]
      ensures complete == old(complete)
    {
      var meta := UploadMeta(chunksTotal, chunkSize, 0, totalSize, expires, maxDownloads, now);
      pending := pending[id := Pending(meta, [])];
    }

    method AppendChunk(id: Id, index: int, data: Bytes) returns (err: Option<StoreError>)
      modifies this
      ensures err == AppendError(old(pending), id, index, data)
      ensures pending == if err.None? then old(pending)[id := Appended(old(pending)[id], data)] else old(pending)
      ensures complete == old(complete)
    {
      if !ValidId(id) || id !in pending {
        return Some(NotFound);
      }
      var p := pending[id];
      if index != p.meta.chunksWritten {
        return Some(OutOfOrder);
      }
      if |data| > NONCE_SIZE + p.meta.chunkSize + TAG_SIZE {
        return Some(TooLarge);
      }
      pending := pending[id := Pending(p.meta.(chunksWritten := p.meta.chunksWritten + 1), p.enc + data)];
      return None;
    }

    /** fileId and deleteKey are the random values the server draws. */
    method FinalizeUpload(id: Id, nameEnc: Bytes, nameNonce: Bytes, sha: Bytes, fileId: Id, deleteKey: Bytes)
      returns (err: Option<StoreError>)
      modifies this
      ensures err == if !ValidId(id) || id !in old(pending) then Some(NotFound)
                     else if old(pending)[id].meta.chunksWritten != old(pending)[id].meta.chunksTotal then Some(Incomplete)
                     else None
      ensures err.Some? ==> pending == old(pending) && complete == old(complete)
      ensures err.None? ==>
                && pending == old(pending) - {id}
                && complete == old(complete)[fileId := Finished(old(pending)[id], nameEnc, nameNonce, sha, deleteKey)]
    {
      if !ValidId(id) || id !in pending {
        return Some(NotFound);
      }
      var p := pending[id];
      var m := p.meta;
      if m.chunksWritten != m.chunksTotal {
        return Some(Incomplete);
      }
      var left: int := m.maxDownloads;
      if m.maxDownloads == 0 {
        left := -1;
      }
      var fm := FileMeta(nameEnc, nameNonce, m.totalSize, |p.enc|, sha, m.chunksTotal, m.chunkSize, m.expiresAt,
                         m.maxDownloads, left, deleteKey, m.createdAt);
      complete := complete[fileId := Stored(fm, p.enc)];
      pending := pending - {id};
      return None;
    }

    /** Open and count one download; the returned metadata already carries the new count. */
    method OpenDownload(id: Id, now: int) returns (r: Option<Stored>, err: Option<StoreError>)
      modifies this
      ensures err == OpenError(old(complete), id, now)
      ensures err.Some? ==> r.None? && complete == old(complete)
      ensures err.None? ==> r == Some(Counted(old(complete)[id])) && complete == old(complete)[id := r.value]
      ensures pending == old(pending)
    {
      if !ValidId(id) || id !in complete {
        return None, Some(NotFound);
      }
      var f := complete[id];
      if now > f.meta.expiresAt {
        return None, Some(Expired);
      }
      if f.meta.downloadsLeft == 0 {
        return None, Some(LimitReached);
      }
      if f.meta.downloadsLeft > 0 {
        f := Stored(f.meta.(downloadsLeft := f.meta.downloadsLeft - 1), f.enc);
        complete := complete[id := f];
      }
      return Some(f), None;
    }

    method Delete(id: Id, key: Bytes) returns (err: Option<StoreError>)
      modifies this
      ensures err == if !ValidId(id) || id !in old(complete) then Some(NotFound)
                     else if old(complete)[id].meta.deleteKey == [] || old(complete)[id].meta.deleteKey != key then Some(BadKey)
                     else None
      ensures complete == if err.None? then old(complete) - {id} else old(complete)
      ensures pending == old(pending)
    {
      if !ValidId(id) || id !in complete {
        return Some(NotFound);
      }
      if complete[id].meta.deleteKey == [] || complete[id].meta.deleteKey != key {
        return Some(BadKey);
      }
      complete := complete - {id};
      return None;
    }

    /** Drops exactly the expired or exhausted files and the stale uploads, and counts them. */
    method CleanExpired(now: int) returns (removed: nat)
      modifies this
      ensures complete == map id | id in old(complete) && !(ValidId(id) && Removable(old(complete)[id], now)) :: old(complete)[id]
      ensures pending == map id | id in old(pending) && !(ValidId(id) && Stale(old(pending)[id], now)) :: old(pending)[id]
      ensures removed == |old(complete)| - |complete| + |old(pending)| - |pending|
    {
      removed := 0;
      var todo := complete.Keys;
      while todo != {}
        invariant todo <= complete.Keys <= old(complete).Keys
        invariant forall id :: id in old(complete) ==>
          (id in complete <==> id in todo || !(ValidId(id) && Removable(old(complete)[id], now)))
        invariant forall id :: id in complete ==> complete[id] == old(complete)[id]
        invariant pending == old(pending)
        invariant removed == |old(complete)| - |complete|
        decreases |todo|
      {
        var id :| id in todo;
        todo := todo - {id};
        if ValidId(id) && Removable(complete[id], now) {
          RemoveOne(complete, id);
          complete := complete - {id};
          removed := removed + 1;
        }
      }
      var todo' := pending.Keys;
      while todo' != {}
        invariant todo' <= pending.Keys <= old(pending).Keys
        invariant forall id :: id in old(pending) ==>
          (id in pending <==> id in todo' || !(ValidId(id) && Stale(old(pending)[id], now)))
        invariant forall id :: id in pending ==> pending[id] == old(pending)[id]
        invariant complete == map id | id in old(complete) && !(ValidId(id) && Removable(old(complete)[id], now)) :: old(complete)[id]
        invariant removed == |old(complete)| - |complete| + |old(pending)| - |pending|
        decreases |todo'|
      {
        var id :| id in todo';
        todo' := todo' - {id};
        if ValidId(id) && Stale(pending[id], now) {
          RemoveOne(pending, id);
          pending := pending - {id};
          removed := removed + 1;
        }
      }
    }
  }

  lemma RemoveOne<V>(m: map<Id, V>, id: Id)
    requires id in m
    ensures |m - {id}| == |m| - 1
  {
    assert (m - {id}).Keys == m.Keys - {id};
    assert |m.Keys - {id}| == |m.Keys| - 1;
  }

  // ---------------------------------------------------------------- handleUploadInit

  /** maxTTL is 0 when no option is configured. */
  datatype Config = Config(maxSize: int, maxDownloads: int, maxTTL: int)

  /** Both are 64-bit values, and lifetimes are not negative. */
  ghost predicate Sensible(cfg: Config) {
    cfg.maxSize < I64_LIMIT && 0 <= cfg.maxTTL < I64_LIMIT
  }

  /** (total + cs - 1) / cs in 64 bits, where division truncates toward zero. */
  function ExpectedChunks(total: int, cs: nat): int
    requires cs >= 1
  {
    var sum := Wrap64(total + cs - 1);
    if sum >= 0 then sum / cs else -((-sum) / cs)
  }

  /** That is the number of chunks exactly when rounding up stays within 64 bits. */
  lemma ExpectedChunksIff(total: int, cs: nat)
    requires 0 < total < I64_LIMIT && 1 <= cs <= MAX_CHUNK_SIZE
    ensures ExpectedChunks(total, cs) == ChunkCount(total, cs) <==> total + cs - 1 < I64_LIMIT
  {
    hide Wrap64;
    var d := total + cs - 1;
    if d >= I64_LIMIT {
      WrapsNegative(d);
      QuotientSigns(d, U64 - d, cs);
    }
  }

  lemma WrapsNegative(d: int)
    requires I64_LIMIT <= d < U64
    ensures Wrap64(d) == d - U64
  {
    DivUnique(d + I64_LIMIT, U64, 1, d + I64_LIMIT - U64);
  }

  lemma QuotientSigns(d: nat, e: nat, cs: nat)
    requires 1 <= cs <= d
    ensures d / cs >= 1 && e / cs >= 0
  {
    var k, r := d / cs, d % cs;
    assert d == k * cs + r;
  }

  predicate WithinCap(cap: int, max: nat) {
    cap > 0 ==> 1 <= max <= cap
  }

  /** What the server's cap means for everything it holds. */
  ghost predicate Limits(cap: int, pending: map<Id, Pending>, complete: map<Id, Stored>) {
    && (forall id :: id in pending ==> WithinCap(cap, pending[id].meta.maxDownloads))
    && (forall id :: id in complete ==>
          var m := complete[id].meta;
          && WithinCap(cap, m.maxDownloads)
          && if m.maxDownloads == 0 then m.downloadsLeft == -1 else 0 <= m.downloadsLeft <= m.maxDownloads)
  }

  datatype InitRequest = InitRequest(
    chunksTotal: int, totalSize: int, ttlSeconds: int, maxDownloads: int, chunkSize: int)

  datatype InitReply = Forbidden | BadRequest | EntityTooLarge | Granted(chunkSize: int, expiresAt: int)

  function NegotiatedChunkSize(asked: int): (cs: nat)
    ensures 1 <= cs <= MAX_CHUNK_SIZE
  {
    if asked <= 0 then CHUNK_SIZE else if asked > MAX_CHUNK_SIZE then MAX_CHUNK_SIZE else asked
  }

  predicate InitAccepts(cfg: Config, authorised: bool, req: InitRequest) {
    && authorised
    && 0 < req.totalSize <= cfg.maxSize && req.ttlSeconds > 0
    && req.chunksTotal == ExpectedChunks(req.totalSize, NegotiatedChunkSize(req.chunkSize))
  }

  lemma NewcomerKeepsLimits(cap: int, pending: map<Id, Pending>, complete: map<Id, Stored>, id: Id, p: Pending)
    requires WithinCap(cap, p.meta.maxDownloads)
    ensures Limits(cap, pending, complete) ==> Limits(cap, pending[id := p], complete)
  {
  }

  lemma ExpectedIs(total: int, cs: nat, sum: int)
    requires cs >= 1 && sum == Wrap64(total + cs - 1)
    ensures ExpectedChunks(total, cs) == if sum >= 0 then sum / cs else -((-sum) / cs)
  {
  }

  lemma ClampedLifetime(maxTTL: int, seconds: int, ttl: int)
    requires 0 < seconds < I64_LIMIT && maxTTL < I64_LIMIT
    requires var asked := Wrap64(seconds * NS_PER_SECOND);
             ttl == if maxTTL > 0 && (seconds > maxTTL / NS_PER_SECOND || asked <= 0) then maxTTL else asked
    ensures maxTTL > 0 ==> ttl == Min(seconds * NS_PER_SECOND, maxTTL)
  {
    hide Wrap64;
    assert maxTTL == maxTTL / NS_PER_SECOND * NS_PER_SECOND + maxTTL % NS_PER_SECOND;
    if maxTTL > 0 && seconds <= maxTTL / NS_PER_SECOND {
      assert seconds * NS_PER_SECOND <= maxTTL;
    }
  }

  lemma CappedLimit(cap: int, asked: int, max: nat)
    requires var m := if asked > 0 then asked else 0;
             max == if cap > 0 && (m == 0 || m > cap) then cap else m
    ensures WithinCap(cap, max) && LimitFor(cap, asked, max)
  {
  }

  /** The limit a request ends up with: what was asked for if the cap allows it, the cap if not, none if there is no cap. */
  predicate LimitFor(cap: int, asked: int, max: nat) {
    && (asked > 0 && (cap <= 0 || asked <= cap) ==> max == asked)
    && (cap > 0 && (asked <= 0 || asked > cap) ==> max == cap)
    && (cap <= 0 && asked <= 0 ==> max == 0)
  }

  /**
   * The request is granted exactly when the size is allowed and the announced chunk count is the one the
   * negotiated chunk size gives; a server cap always ends up as a limit of at least one download, and the
   * file never outlives the longest configured lifetime.
   */
  method HandleUploadInit(
    store: Store, cfg: Config, authorised: bool, req: InitRequest, id: Id, now: int) returns (r: InitReply)
    requires Sensible(cfg) && -I64_LIMIT <= req.ttlSeconds < I64_LIMIT
    modifies store
    ensures r.Granted? <==> InitAccepts(cfg, authorised, req)
    ensures r.Forbidden? <==> !authorised
    ensures r.EntityTooLarge? <==> authorised && 0 < req.totalSize && cfg.maxSize < req.totalSize
    ensures store.complete == old(store.complete)
    ensures !r.Granted? ==> store.pending == old(store.pending)
    ensures r.Granted? ==>
              && r.chunkSize == NegotiatedChunkSize(req.chunkSize)
              && r.chunkSize == (if req.chunkSize <= 0 then 262144 else if req.chunkSize <= 2097152 then req.chunkSize else 2097152)
              && id in store.pending
              && store.pending == old(store.pending)[id := store.pending[id]]
              && var m := store.pending[id].meta;
                 && store.pending[id].enc == [] && m.chunksWritten == 0
                 && m.chunksTotal == req.chunksTotal && m.chunkSize == r.chunkSize && m.totalSize == req.totalSize
                 && m.createdAt == now && m.expiresAt == r.expiresAt
                 && (cfg.maxTTL > 0 ==> r.expiresAt == now + Min(req.ttlSeconds * NS_PER_SECOND, cfg.maxTTL))
                 && (cfg.maxTTL == 0 ==> r.expiresAt == now + Wrap64(req.ttlSeconds * NS_PER_SECOND))
                 && LimitFor(cfg.maxDownloads, req.maxDownloads, m.maxDownloads)
    ensures Limits(cfg.maxDownloads, old(store.pending), old(store.complete)) ==>
              Limits(cfg.maxDownloads, store.pending, store.complete)
  {
    hide Limits, WithinCap, LimitFor, Wrap64, ExpectedChunks;
    if !authorised {
      return Forbidden;
    }
    if req.totalSize <= 0 {
      return BadRequest;
    }
    if req.totalSize > cfg.maxSize {
      return EntityTooLarge;
    }
    if req.ttlSeconds <= 0 {
      return BadRequest;
    }
    var ttl := Wrap64(req.ttlSeconds * NS_PER_SECOND);
    if cfg.maxTTL > 0 && (req.ttlSeconds > cfg.maxTTL / NS_PER_SECOND || ttl <= 0) {
      ttl := cfg.maxTTL;
    }
    assert cfg.maxTTL > 0 ==> ttl == Min(req.ttlSeconds * NS_PER_SECOND, cfg.maxTTL) by {
      ClampedLifetime(cfg.maxTTL, req.ttlSeconds, ttl);
    }
    var maxDl := if req.maxDownloads > 0 then req.maxDownloads else 0;
    if cfg.maxDownloads > 0 && (maxDl == 0 || maxDl > cfg.maxDownloads) {
      maxDl := cfg.maxDownloads;
    }
    var cs := req.chunkSize;
    if cs <= 0 {
      cs := CHUNK_SIZE;
    }
    if cs > MAX_CHUNK_SIZE {
      cs := MAX_CHUNK_SIZE;
    }
    var sum := Wrap64(req.totalSize + cs - 1);
    var expectedChunks := if sum >= 0 then sum / cs else -((-sum) / cs);
    assert expectedChunks == ExpectedChunks(req.totalSize, cs) by { ExpectedIs(req.totalSize, cs, sum); }
    if req.chunksTotal != expectedChunks {
      return BadRequest;
    }
    var expires := now + ttl;
    assert WithinCap(cfg.maxDownloads, maxDl) && LimitFor(cfg.maxDownloads, req.maxDownloads, maxDl) by { CappedLimit(cfg.maxDownloads, req.maxDownloads, maxDl); }
    store.InitUpload(id, req.chunksTotal, req.totalSize, expires, maxDl, cs, now);
    NewcomerKeepsLimits(cfg.maxDownloads, old(store.pending), store.complete, id, store.pending[id]);
    return Granted(cs, expires);
  }

  datatype ChunkReply = ChunkOk | ChunkRefused

  /** The handler reads at most one chunk of the negotiated size, then appends it. */
  method HandleUploadChunk(store: Store, id: Id, index: int, body: Bytes) returns (r: ChunkReply)
    modifies store
    ensures store.complete == old(store.complete)
    ensures r.ChunkOk? ==>
              && AppendError(old(store.pending), id, index, body).None?
              && store.pending == old(store.pending)[id := Appended(old(store.pending)[id], body)]
    ensures r.ChunkRefused? ==> store.pending == old(store.pending)
    ensures AppendError(old(store.pending), id, index, body).None? && old(store.pending)[id].meta.chunkSize > 0 ==> r.ChunkOk?
  {
    if id == [] || !ValidId(id) || id !in store.pending {
      return ChunkRefused;
    }
    var negotiated := store.pending[id].meta.chunkSize;
    if negotiated <= 0 {
      negotiated := CHUNK_SIZE;
    }
    if |body| > NONCE_SIZE + negotiated + TAG_SIZE {
      return ChunkRefused;
    }
    var err := store.AppendChunk(id, index, body);
    return if err.Some? then ChunkRefused else ChunkOk;
  }
}
