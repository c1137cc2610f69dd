/**
 * Resuming across sessions. A file may be sent again and again under the same name, each session cut off
 * at an arbitrary point, even in the middle of a disk write. Hypotheses of this module only: every read
 * before end of file fills a chunk, ResumeFrom reaches the sender before its two-second timer, nobody else
 * touches the partial and its sidecar, and no two files ever sent under the name share a digest.
 */
module Resume {
  import opened Prelude
  import opened Frames
  import opened Names
  import opened Receiver
  import opened ReceiverProofs
  import opened SendLoop
  import opened Window

  /** Digest to contents, for every file sent under the name. */
  type Library = map<Bytes, Bytes>

  ghost predicate InLibrary(c: Codec, lib: Library, src: Bytes) {
    c.sha(src) in lib && lib[c.sha(src)] == src
  }

  function MetaView(c: Codec, fs: Files, base: Bytes): Option<PartialMeta> {
    if MetaPath(base) in fs then c.decMeta(fs[MetaPath(base)]) else None
  }

  predicate Claims(lib: Library, m: PartialMeta) {
    m.sha in lib && m.chunkSize >= 1 && m.chunksDone != 0
  }

  /** The sidecar counts whole chunks of the file it names, the last one possibly short. */
  predicate Sane(lib: Library, m: PartialMeta) {
    Claims(lib, m) ==>
      && m.chunksDone > 0
      && (m.chunksDone - 1) * m.chunkSize < |lib[m.sha]|
      && m.bytesDone == Covered(m.chunksDone, m.chunkSize, |lib[m.sha]|)
  }

  /** What a later session relies on when it finds these two files. */
  ghost predicate DiskOk(c: Codec, lib: Library, fs: Files, base: Bytes) {
    var mv := MetaView(c, fs, base);
    mv.Some? ==>
      && Sane(lib, mv.value)
      && (Claims(lib, mv.value) && PartialPath(base) in fs && |fs[PartialPath(base)]| == mv.value.bytesDone ==>
            fs[PartialPath(base)] == lib[mv.value.sha][..mv.value.bytesDone])
  }

  // ---------------------------------------------------------------- crashes

  /** fs' is a disk an interrupted op can leave: untouched, done, or with only part of the bytes. */
  ghost predicate Interrupted(fs: Files, op: DiskOp, fs': Files) {
    || fs' == fs
    || fs' == Apply(fs, op)
    || (op.Append? && exists n: nat :: n <= |op.data| && fs' == Apply(fs, Append(op.path, op.data[..n])))
    || (op.Write? && exists n: nat :: n <= |op.data| && fs' == Apply(fs, Write(op.path, op.data[..n])))
  }

  ghost predicate CrashDuring(fs: Files, ops: seq<DiskOp>, fs': Files)
    decreases |ops|
  {
    if ops == [] then fs' == fs
    else Interrupted(fs, ops[0], fs') || CrashDuring(Apply(fs, ops[0]), ops[1..], fs')
  }

  lemma CrashOfOne(fs: Files, op: DiskOp, fs': Files)
    requires CrashDuring(fs, [op], fs')
    ensures Interrupted(fs, op, fs')
  {
    assert [op][1..] == [];
  }

  lemma CrashOfTwo(fs: Files, op: DiskOp, rest: seq<DiskOp>, fs': Files)
    requires CrashDuring(fs, [op] + rest, fs')
    ensures Interrupted(fs, op, fs') || CrashDuring(Apply(fs, op), rest, fs')
  {
    assert ([op] + rest)[1..] == rest;
  }

  /** A sidecar torn anywhere is unreadable, or complete after all. */
  lemma TornSidecar(c: Codec, fs: Files, base: Bytes, m: PartialMeta, w: WriteOutcome, fs': Files)
    requires Lossless(c)
    requires CrashDuring(fs, MetaOps(c, MetaPath(base), m, w), fs')
    ensures SameExcept(fs, fs', {MetaPath(base)})
    ensures MetaView(c, fs', base) in {MetaView(c, fs, base), None, Some(m)}
  {
    var raw := c.encMeta(m);
    assert raw[..|raw|] == raw;
    var ops := MetaOps(c, MetaPath(base), m, w);
    if ops != [] {
      var k := |ops[0].data|;
      assert ops == [Write(MetaPath(base), raw[..k])];
      CrashOfOne(fs, ops[0], fs');
      if fs' != fs && fs' != Apply(fs, ops[0]) {
        var n: nat :| n <= k && fs' == Apply(fs, Write(MetaPath(base), raw[..k][..n]));
        assert raw[..k][..n] == raw[..n];
      }
    }
  }

  // ---------------------------------------------------------------- opening a session

  function HeaderFor(c: Codec, src: Bytes, name: Bytes, chunkSize: nat): FileHeader
    requires chunkSize >= 1
  {
    var n := ChunkCount(|src|, chunkSize);
    FileHeader(name, |src|, chunkSize, c.sha(src), if n == 0 then 1 else n, [])
  }

  function Greet(c: Codec, fs: Files, src: Bytes, name: Bytes, chunkSize: nat, env: Env): Step
    requires chunkSize >= 1
  {
    Feed(c, BLANK, fs, [TAG_FILE_HEADER] + c.encHeader(HeaderFor(c, src, name, chunkSize)), env)
  }

  /** The chunk the sender is told to go on from, 0 in a fresh session. */
  function StartOf(st: Step): SeqNo {
    if st.resumes == [] then 0 else st.resumes[0]
  }

  /**
   * Both sides after the header has been handled without error and the sender has seeked as told, to where
   * its own 64-bit arithmetic puts it. The in-memory twin never resumes; in a resumed session it stands for
   * one that already holds the prefix.
   */
  function Connect(c: Codec, fs: Files, src: Bytes, name: Bytes, chunkSize: nat, window: nat, env: Env): Sys
    requires chunkSize >= 1
  {
    Connected(Greet(c, fs, src, name, chunkSize, env), fs, src, chunkSize, window)
  }

  function Connected(st: Step, fs: Files, src: Bytes, chunkSize: nat, window: nat): Sys {
    var k := StartOf(st);
    Sys(src, chunkSize, window, SendFrom(k, chunkSize, |src|), k, k, k, false, Sending, [], [],
        st.rs, ApplyAll(fs, st.ops), Mem(st.rs.header, st.rs.hashed, st.rs.hashed, false, st.rs.base), false, None)
  }

  lemma OpensFresh(c: Codec, lib: Library, fs: Files, src: Bytes, name: Bytes, chunkSize: nat, env: Env)
    requires Lossless(c) && chunkSize >= 1
    requires var st := Greet(c, fs, src, name, chunkSize, env); st.err.None? && st.resumes == []
    ensures var st := Greet(c, fs, src, name, chunkSize, env);
            var fs' := ApplyAll(fs, st.ops);
            var base := Sanitise(name);
            && st.rs.base == base && st.rs.header == Some(HeaderFor(c, src, name, chunkSize))
            && Booked(st.rs, fs') && st.rs.hashed == []
            && SameExcept(fs, fs', {PartialPath(base), MetaPath(base)})
            && SessionDisk(c, lib, fs', base, src, chunkSize)
  {
    hide Sanitise, ChunkCount;
    var hdr := HeaderFor(c, src, name, chunkSize);
    var frame := [TAG_FILE_HEADER] + c.encHeader(hdr);
    assert frame[1..] == c.encHeader(hdr);
    var base := Sanitise(name);
    BooksOpenFresh(c, BLANK, fs, frame[1..], env);
    FreshDisk(c, lib, BLANK.(header := Some(hdr), base := base, final := base), fs, src, chunkSize, env);
  }

  lemma CheckPartialSound(c: Codec, lib: Library, fs: Files, src: Bytes, base: Bytes, hdr: FileHeader)
    requires InLibrary(c, lib, src) && |src| < I64_LIMIT && hdr.sha == c.sha(src) && hdr.chunkSize >= 1
    requires DiskOk(c, lib, fs, base)
    ensures var (k, n) := CheckPartial(c, fs, base, hdr);
            k > 0 ==>
              && k <= |src| && (k - 1) * hdr.chunkSize < |src|
              && n == Covered(k, hdr.chunkSize, |src|)
              && fs[PartialPath(base)] == src[..n]
              && SessionDisk(c, lib, fs, base, src, hdr.chunkSize)
  {
    hide Covered;
    var (k, n) := CheckPartial(c, fs, base, hdr);
    if k > 0 {
      var m := MetaView(c, fs, base).value;
      assert Claims(lib, m) && Sane(lib, m);
      if m.chunksDone - 1 >= |src| {
        MulMono(1, hdr.chunkSize, m.chunksDone - 1);
      }
    }
  }

  /** A readable sidecar for this digest and chunk size that counts chunks of a partial of the recorded length. */
  predicate Resumable(c: Codec, fs: Files, base: Bytes, hdr: FileHeader) {
    var mv := MetaView(c, fs, base);
    && mv.Some? && mv.value.sha == hdr.sha && mv.value.chunkSize == hdr.chunkSize && mv.value.chunksDone % U64 != 0
    && PartialPath(base) in fs && |fs[PartialPath(base)]| == mv.value.bytesDone
  }

  /** A partial is used if and only if it is resumable, and then with exactly the numbers the sidecar holds. */
  lemma CheckPartialExact(c: Codec, fs: Files, base: Bytes, hdr: FileHeader)
    ensures CheckPartial(c, fs, base, hdr).0 > 0 <==> Resumable(c, fs, base, hdr)
    ensures Resumable(c, fs, base, hdr) && 0 < MetaView(c, fs, base).value.chunksDone < U64 ==>
              CheckPartial(c, fs, base, hdr) == (MetaView(c, fs, base).value.chunksDone, MetaView(c, fs, base).value.bytesDone)
  {
  }

  /**
   * The answer to a header: a resumable partial that can be reopened and hashed again is resumed with exactly
   * what its sidecar counts, and nothing is written; in every other case the partial is truncated and a
   * sidecar that counts nothing is written.
   */
  lemma HeaderAnswers(c: Codec, rs: Recv, fs: Files, hdr: FileHeader, env: Env)
    requires Lossless(c)
    ensures var s := Feed(c, rs, fs, [1] + c.encHeader(hdr), env);
            var base := Sanitise(hdr.name);
            var p, m := PartialPath(base), PartialMeta(hdr.sha, hdr.chunkSize, 0, 0);
            && !s.done && s.acks == [] && s.rs.header == Some(hdr) && s.rs.base == s.rs.final == base
            && (if Resumable(c, fs, base, hdr) && env.reopenOk && env.replayOk then
                  && s.ops == [] && s.rs.hashed == fs[p] && s.rs.received == |fs[p]|
                  && (if env.resumeOk then s.err == None && s.resumes == [MetaView(c, fs, base).value.chunksDone % U64]
                      else s.err == Some(ResumeFailed) && s.resumes == [])
                else
                  && s.resumes == []
                  && (if !env.createOk then s.err == Some(CreateFailed) && s.ops == []
                      else if !env.metaWrite.Written? then
                        s.err == Some(MetaFailed) && s.ops == [Create(p)] + MetaOps(c, MetaPath(base), m, env.metaWrite)
                      else
                        && s.err == None && s.ops == [Create(p), Write(MetaPath(base), c.encMeta(m))]
                        && s.rs.hashed == [] && s.rs.received == 0 && s.rs.handle == Open(p)))
  {
    hide Sanitise;
    assert ([1] + c.encHeader(hdr))[1..] == c.encHeader(hdr);
    CheckPartialExact(c, fs, Sanitise(hdr.name), hdr);
    if Resumable(c, fs, Sanitise(hdr.name), hdr) {
      var p := PartialPath(Sanitise(hdr.name));
      assert fs[p][..|fs[p]|] == fs[p];
    }
  }

  lemma OpensResumed(c: Codec, lib: Library, fs: Files, src: Bytes, name: Bytes, chunkSize: nat, env: Env)
    requires Lossless(c) && InLibrary(c, lib, src) && |src| < I64_LIMIT && chunkSize >= 1
    requires DiskOk(c, lib, fs, Sanitise(name))
    requires var st := Greet(c, fs, src, name, chunkSize, env); st.err.None? && st.resumes != []
    ensures var st := Greet(c, fs, src, name, chunkSize, env);
            var base := Sanitise(name);
            && st.ops == [] && |st.resumes| == 1
            && st.rs.base == base && st.rs.header == Some(HeaderFor(c, src, name, chunkSize))
            && Booked(st.rs, fs)
            && 0 < st.resumes[0] <= |src| && (st.resumes[0] - 1) * chunkSize < |src|
            && st.rs.hashed == src[..Covered(st.resumes[0], chunkSize, |src|)]
            && SessionDisk(c, lib, fs, base, src, chunkSize)
  {
    hide Sanitise, ChunkCount;
    var hdr := HeaderFor(c, src, name, chunkSize);
    var frame := [TAG_FILE_HEADER] + c.encHeader(hdr);
    assert frame[1..] == c.encHeader(hdr);
    hide CheckPartial, SessionDisk, DiskOk;
    CheckPartialSound(c, lib, fs, src, Sanitise(name), hdr);
    var (k, n) := CheckPartial(c, fs, Sanitise(name), hdr);
    assert k > 0 ==> fs[PartialPath(Sanitise(name))][..n] == src[..n];
  }

  /** The receiver resumes, holding exactly the first k chunks, or starts over with an empty partial. */
  lemma OpensHolding(c: Codec, lib: Library, fs: Files, src: Bytes, name: Bytes, chunkSize: nat, env: Env)
    requires Lossless(c) && InLibrary(c, lib, src) && |src| < I64_LIMIT && chunkSize >= 1
    requires DiskOk(c, lib, fs, Sanitise(name))
    requires Greet(c, fs, src, name, chunkSize, env).err.None?
    ensures var st := Greet(c, fs, src, name, chunkSize, env);
            var k := StartOf(st);
            var fs' := ApplyAll(fs, st.ops);
            var p := PartialPath(Sanitise(name));
            && Booked(st.rs, fs') && st.rs.base == Sanitise(name)
            && st.rs.header == Some(HeaderFor(c, src, name, chunkSize))
            && (k > 0 ==> fs' == fs && k <= |src| && (k - 1) * chunkSize < |src|)
            && p in fs' && fs'[p] == st.rs.hashed == src[..Covered(k, chunkSize, |src|)]
            && SameExcept(fs, fs', {p, MetaPath(Sanitise(name))})
            && SessionDisk(c, lib, fs', Sanitise(name), src, chunkSize)
  {
    hide Sanitise, ChunkCount, Greet, SessionDisk, DiskOk;
    var st := Greet(c, fs, src, name, chunkSize, env);
    if st.resumes == [] {
      OpensFresh(c, lib, fs, src, name, chunkSize, env);
    } else {
      OpensResumed(c, lib, fs, src, name, chunkSize, env);
    }
  }

  /** Where the sender's arithmetic puts it is the end of the k-th chunk, whenever the seek works at all. */
  lemma SeekLands(k: nat, size: nat, n: nat, seekable: bool, breaksAt: Option<nat>)
    requires 1 <= size <= SendLoop.MAX_CHUNK_SIZE && n < I64_LIMIT && (k > 0 ==> (k - 1) * size < n)
    ensures k < U64
    ensures !SeekFails(k, size, n, seekable, breaksAt) ==> SendFrom(k, size, n) == Covered(k, size, n)
    ensures SeekFails(k, size, n, seekable, breaksAt) <==>
              if seekable then k * size >= I64_LIMIT else k * size > n || BreaksWithin(breaksAt, 0, k * size)
  {
    hide SeekOffset;
    OffsetOf(k, size, n);
    if k > 0 {
      MulMono(1, k, size);
    }
  }

  /** One chunk past the last one needed, the product exceeds 64 signed bits by less than a chunk. */
  lemma OffsetOf(k: nat, size: nat, n: nat)
    requires 1 <= size <= SendLoop.MAX_CHUNK_SIZE && n < I64_LIMIT && (k > 0 ==> (k - 1) * size < n)
    ensures k < U64 && 0 <= k * size < I64_LIMIT + size
    ensures SeekOffset(k, size) == if k * size < I64_LIMIT then k * size else k * size - U64
  {
    hide Wrap64;
    if k > 0 {
      MulMono(1, size, k - 1);
      assert k * size == (k - 1) * size + size;
    }
    WrapsAt(k);
    OffsetIsProduct(k, size);
    WrapsAt(k * size);
  }

  lemma OffsetIsProduct(k: nat, size: nat)
    requires k < U64 && Wrap64(k) == k
    ensures SeekOffset(k, size) == Wrap64(k * size)
  {
    hide Wrap64;
  }

  lemma WrapsAt(x: int)
    requires 0 <= x < U64
    ensures Wrap64(x) == if x < I64_LIMIT then x else x - U64
  {
    if x >= I64_LIMIT {
      DivUnique(x + I64_LIMIT, U64, 1, x - I64_LIMIT);
    }
  }

  /**
   * After a seek that works, both sides are in a starting state of the window protocol: the receiver holds
   * exactly the bytes the sender has skipped.
   */
  lemma OpensExactly(c: Codec, lib: Library, fs: Files, src: Bytes, name: Bytes, chunkSize: nat, window: nat, env: Env,
                     seekable: bool, breaksAt: Option<nat>)
    requires Lossless(c) && InLibrary(c, lib, src) && |src| < I64_LIMIT && window >= 1
    requires 1 <= chunkSize <= SendLoop.MAX_CHUNK_SIZE
    requires DiskOk(c, lib, fs, Sanitise(name))
    requires Greet(c, fs, src, name, chunkSize, env).err.None?
    requires !SeekFails(StartOf(Greet(c, fs, src, name, chunkSize, env)), chunkSize, |src|, seekable, breaksAt)
    ensures var s := Connect(c, fs, src, name, chunkSize, window, env);
            var p := PartialPath(Sanitise(name));
            && Inv(c, s) && s.rs.base == Sanitise(name)
            && s.src == src && s.chunkSize == chunkSize && s.pos == Covered(s.next, chunkSize, |src|)
            && p in s.fs && s.fs[p] == src[..s.pos]
            && (s.start > 0 ==> s.fs == fs && (s.start - 1) * chunkSize < |src|)
            && SameExcept(fs, s.fs, {p, MetaPath(Sanitise(name))})
            && SessionDisk(c, lib, s.fs, Sanitise(name), src, chunkSize)
            && s.rs.header == Some(HeaderFor(c, src, name, chunkSize))
  {
    hide Sanitise, ChunkCount, Greet, SessionDisk, DiskOk, SeekFails, SendFrom, Covered;
    var k := StartOf(Greet(c, fs, src, name, chunkSize, env));
    OpensHolding(c, lib, fs, src, name, chunkSize, env);
    SeekLands(k, chunkSize, |src|, seekable, breaksAt);
  }

  /** While a session runs: the partial is a prefix of its file, a readable sidecar is about this file. */
  ghost predicate SessionDisk(c: Codec, lib: Library, fs: Files, base: Bytes, src: Bytes, chunkSize: nat) {
    var mv := MetaView(c, fs, base);
    && PartialPath(base) in fs && fs[PartialPath(base)] <= src
    && (mv.Some? ==> mv.value.sha == c.sha(src) && mv.value.chunkSize == chunkSize && Sane(lib, mv.value))
  }

  lemma SessionDiskIsOk(c: Codec, lib: Library, fs: Files, base: Bytes, src: Bytes, chunkSize: nat)
    requires InLibrary(c, lib, src) && SessionDisk(c, lib, fs, base, src, chunkSize)
    ensures DiskOk(c, lib, fs, base)
  {
  }

  lemma FreshDisk(c: Codec, lib: Library, rs: Recv, fs: Files, src: Bytes, chunkSize: nat, env: Env)
    requires Lossless(c) && rs.header.Some?
    requires rs.header.value.sha == c.sha(src) && rs.header.value.chunkSize == chunkSize
    requires var s := FreshStart(c, rs, rs.header.value, env); s.err.None?
    ensures var s := FreshStart(c, rs, rs.header.value, env);
            var fs' := ApplyAll(fs, s.ops);
            && SameExcept(fs, fs', {PartialPath(rs.base), MetaPath(rs.base)})
            && SessionDisk(c, lib, fs', rs.base, src, chunkSize)
  {
    var p, q := PartialPath(rs.base), MetaPath(rs.base);
    FinalIsApart({}, rs.base);
    var m := PartialMeta(c.sha(src), chunkSize, 0, 0);
    ApplyFirst(fs, Create(p), [Write(q, c.encMeta(m))]);
    ApplyOne(fs[p := []], Write(q, c.encMeta(m)));
  }

  /** A crash while the header is handled, whatever the header announces, leaves a usable disk. */
  lemma HeaderCrash(c: Codec, lib: Library, fs: Files, src: Bytes, name: Bytes, chunkSize: nat, env: Env, fs': Files)
    requires Lossless(c) && chunkSize >= 1
    requires DiskOk(c, lib, fs, Sanitise(name))
    requires CrashDuring(fs, Greet(c, fs, src, name, chunkSize, env).ops, fs')
    ensures DiskOk(c, lib, fs', Sanitise(name))
  {
    hide Sanitise, ChunkCount, Sane;
    var hdr := HeaderFor(c, src, name, chunkSize);
    var frame := [TAG_FILE_HEADER] + c.encHeader(hdr);
    assert frame[1..] == c.encHeader(hdr);
    var base := Sanitise(name);
    var p := PartialPath(base);
    FinalIsApart({}, base);
    var ops := Greet(c, fs, src, name, chunkSize, env).ops;
    if ops != [] {
      var m := PartialMeta(hdr.sha, chunkSize, 0, 0);
      CrashOfTwo(fs, Create(p), MetaOps(c, MetaPath(base), m, env.metaWrite), fs');
      var fs1 := fs[p := []];
      EmptyPartialIsOk(c, lib, fs, base);
      if fs' != fs && fs' != fs1 {
        TornSidecar(c, fs1, base, m, env.metaWrite, fs');
        assert Sane(lib, m) by { assert m.chunksDone == 0; SaneZero(lib, m); }
      }
    }
  }

  lemma SaneZero(lib: Library, m: PartialMeta)
    requires m.chunksDone == 0
    ensures Sane(lib, m) && !Claims(lib, m)
  {
  }

  lemma EmptyPartialIsOk(c: Codec, lib: Library, fs: Files, base: Bytes)
    requires DiskOk(c, lib, fs, base)
    ensures DiskOk(c, lib, fs[PartialPath(base) := []], base)
  {
    FinalIsApart({}, base);
  }

  // ---------------------------------------------------------------- a running session

  /** Full reads: before end of file every read fills a chunk. */
  predicate FullRead(s: Sys, a: Action) {
    a.Read? ==> a.n == Min(s.chunkSize, |s.src| - s.pos)
  }

  predicate FullRuns(c: Codec, s: Sys, acts: seq<Action>)
    decreases |acts|
  {
    acts == [] || (Enabled(s, acts[0]) && FullRead(s, acts[0]) && FullRuns(c, Do(c, s, acts[0]), acts[1..]))
  }

  lemma {:induction false} FullRunsRun(c: Codec, s: Sys, acts: seq<Action>)
    requires FullRuns(c, s, acts)
    ensures Runs(c, s, acts)
    decreases |acts|
  {
    if acts != [] {
      FullRunsRun(c, Do(c, s, acts[0]), acts[1..]);
    }
  }

  /** Chunk number q is always bytes q*chunkSize .. (q+1)*chunkSize of the file, cut at its end. */
  predicate WholeChunks(s: Sys) {
    && s.pos == Covered(s.next, s.chunkSize, |s.src|)
    && (forall i :: 0 <= i < |s.dataQ| && s.dataQ[i].Chunk? ==>
          var q := s.dataQ[i].seqNo;
          q * s.chunkSize < |s.src|
          && |s.dataQ[i].payload| == Covered(q + 1, s.chunkSize, |s.src|) - Covered(q, s.chunkSize, |s.src|))
  }

  ghost predicate SessionInv(c: Codec, lib: Library, base: Bytes, s: Sys) {
    && Inv(c, s) && WholeChunks(s)
    && s.rs.base == base
    && InLibrary(c, lib, s.src)
    && (!s.done ==> SessionDisk(c, lib, s.fs, base, s.src, s.chunkSize))
    && (!s.done && s.err.None? ==> s.rs.header.value.chunkSize == s.chunkSize)
    && DiskOk(c, lib, s.fs, base)
  }

  lemma SenderStepSession(c: Codec, lib: Library, base: Bytes, s: Sys, a: Action)
    requires SessionInv(c, lib, base, s) && Enabled(s, a) && FullRead(s, a) && !a.Deliver?
    ensures SessionInv(c, lib, base, Do(c, s, a))
  {
    hide DiskOk, SessionDisk, Inv, Covered;
    StepKeeps(c, s, a);
    assert Inv(c, s) ==> s.pos <= |s.src| && s.chunkSize >= 1 by { InvBounds(c, s); }
    if a.Read? {
      CoveredNext(s.next, s.chunkSize, |s.src|);
    }
  }

  /** The oldest queued chunk is the one the receiver needs next. */
  lemma OldestChunk(c: Codec, s: Sys)
    requires Inv(c, s) && WholeChunks(s) && s.dataQ != [] && s.dataQ[0].Chunk? && s.err.None?
    ensures !s.done && |s.rs.hashed| == Covered(s.dataQ[0].seqNo, s.chunkSize, |s.src|)
    ensures Accounted(c, s) && s.rs.hashed + s.dataQ[0].payload <= s.src
    ensures s.dataQ[0].seqNo * s.chunkSize < |s.src| < I64_LIMIT && s.chunkSize >= 1
    ensures |s.rs.hashed| + |s.dataQ[0].payload| == Covered(s.dataQ[0].seqNo + 1, s.chunkSize, |s.src|)
  {
    hide Covered;
    var f := s.dataQ[0];
    assert Payload(s.dataQ) == f.payload + Payload(s.dataQ[1..]);
    SuffixOfRange(s.ackQ, SeqNos(s.dataQ), s.base, s.next);
    QueuedBytes(s.dataQ, s.chunkSize, |s.src|, s.next);
    assert SeqNos(s.dataQ) == [f.seqNo] + SeqNos(s.dataQ[1..]);
    assert SeqNos(s.dataQ)[0] == s.next - |SeqNos(s.dataQ)|;
    var whole := s.rs.hashed + Payload(s.dataQ);
    assert |whole| == s.pos;
    assert whole[..|s.rs.hashed| + |f.payload|] == s.rs.hashed + f.payload;
  }

  lemma SuffixOfRange(a: seq<SeqNo>, b: seq<nat>, lo: nat, hi: nat)
    requires lo <= hi && a + b == Range(lo, hi)
    ensures |b| <= hi && b == Range(hi - |b|, hi)
  {
    assert forall i :: 0 <= i < |b| ==> b[i] == (a + b)[|a| + i];
  }

  /** Queued chunks hi - n .. hi - 1 carry exactly the bytes between the two chunk boundaries. */
  lemma {:induction false} QueuedBytes(q: seq<Frame>, size: nat, total: nat, hi: nat)
    requires |SeqNos(q)| <= hi && SeqNos(q) == Range(hi - |SeqNos(q)|, hi)
    requires forall i :: 0 <= i < |q| && q[i].Chunk? ==>
               |q[i].payload| == Covered(q[i].seqNo + 1, size, total) - Covered(q[i].seqNo, size, total)
    ensures |Payload(q)| == Covered(hi, size, total) - Covered(hi - |SeqNos(q)|, size, total)
  {
    hide Covered;
    if q != [] {
      var n := |SeqNos(q)|;
      if q[0].Chunk? {
        assert SeqNos(q) == [q[0].seqNo] + SeqNos(q[1..]);
        assert q[0].seqNo == SeqNos(q)[0] == hi - n;
        assert SeqNos(q[1..]) == SeqNos(q)[1..] == Range(hi - n + 1, hi);
      }
      QueuedBytes(q[1..], size, total, hi);
    }
  }

  /** The sidecar written after chunk q: q + 1 chunks, ending where that chunk ends. */
  lemma NextSidecarIsSane(lib: Library, src: Bytes, sha: Bytes, chunkSize: nat, q: SeqNo, bytes: int)
    requires sha in lib && lib[sha] == src && |src| < I64_LIMIT && chunkSize >= 1
    requires q * chunkSize < |src| && bytes == Covered(q + 1, chunkSize, |src|)
    ensures Wrap64(Wrap64(q) + 1) == q + 1
    ensures Sane(lib, PartialMeta(sha, chunkSize, bytes, q + 1))
  {
    if q >= |src| {
      MulMono(1, chunkSize, q);
    }
  }

  /** Every disk a crash inside the handling of a chunk can leave. */
  lemma ChunkCrash(c: Codec, lib: Library, base: Bytes, s: Sys, env: Env, fs': Files)
    requires Lossless(c) && SessionInv(c, lib, base, s) && Enabled(s, Deliver(env)) && s.dataQ[0].Chunk?
    requires CrashDuring(s.fs, Feed(c, s.rs, s.fs, Encode(s.dataQ[0]), env).ops, fs')
    ensures SessionDisk(c, lib, fs', base, s.src, s.chunkSize)
  {
    hide Sane, Covered, Feed, MemFeed, Wrap64, Inv, WholeChunks, CrashDuring, SessionDisk, DiskOk;
    var f := s.dataQ[0];
    OldestChunk(c, s);
    FeedChunk(c, s.rs, s.fs, s.m, f.seqNo, f.payload, env);
    var sha := c.sha(s.src);
    NextSidecarIsSane(lib, s.src, sha, s.chunkSize, f.seqNo, |s.rs.hashed| + |f.payload|);
    var meta := PartialMeta(sha, s.chunkSize, |s.rs.hashed| + |f.payload|, f.seqNo + 1);
    AppendCrash(c, lib, s.fs, base, s.src, s.chunkSize, f.payload, meta, env.metaWrite, fs');
  }

  /** A crash while bytes of the file are appended and the sidecar is rewritten. */
  lemma AppendCrash(c: Codec, lib: Library, fs: Files, base: Bytes, src: Bytes, chunkSize: nat,
                    payload: Bytes, meta: PartialMeta, w: WriteOutcome, fs': Files)
    requires Lossless(c) && SessionDisk(c, lib, fs, base, src, chunkSize)
    requires fs[PartialPath(base)] + payload <= src
    requires meta.sha == c.sha(src) && meta.chunkSize == chunkSize && Sane(lib, meta)
    requires CrashDuring(fs, [Append(PartialPath(base), payload)] + MetaOps(c, MetaPath(base), meta, w), fs')
    ensures SessionDisk(c, lib, fs', base, src, chunkSize)
  {
    hide Sane, MetaOps, CrashDuring, Lossless;
    var p := PartialPath(base);
    FinalIsApart({}, base);
    CrashOfTwo(fs, Append(p, payload), MetaOps(c, MetaPath(base), meta, w), fs');
    var fs1 := Apply(fs, Append(p, payload));
    if !Interrupted(fs, Append(p, payload), fs') {
      TornSidecar(c, fs1, base, meta, w, fs');
    }
  }

  lemma {:induction false} WholeRunIsACrash(fs: Files, ops: seq<DiskOp>)
    ensures CrashDuring(fs, ops, ApplyAll(fs, ops))
    decreases |ops|
  {
    if ops != [] {
      WholeRunIsACrash(Apply(fs, ops[0]), ops[1..]);
    }
  }

  /** Every disk a crash while completing can leave: before the rename, between rename and removal, after. */
  lemma DoneCrash(c: Codec, lib: Library, base: Bytes, s: Sys, env: Env, fs': Files)
    requires SessionInv(c, lib, base, s) && Enabled(s, Deliver(env)) && !s.dataQ[0].Chunk?
    requires CrashDuring(s.fs, Feed(c, s.rs, s.fs, Encode(s.dataQ[0]), env).ops, fs')
    ensures DiskOk(c, lib, fs', base)
  {
    hide UniqueName, Sane;
    var ops := Feed(c, s.rs, s.fs, Encode(s.dataQ[0]), env).ops;
    if ops != [] {
      var p, m, q := PartialPath(base), MetaPath(base), UniqueName(s.fs.Keys, base);
      FinalIsApart(s.fs.Keys, base);
      var rest := if env.removeOk then [Remove(m)] else [];
      assert ops == [Rename(p, q)] + rest;
      CrashOfTwo(s.fs, Rename(p, q), rest, fs');
      var fs1 := Apply(s.fs, Rename(p, q));
      assert p !in fs1 && MetaView(c, fs1, base) == MetaView(c, s.fs, base);
      if env.removeOk && !Interrupted(s.fs, Rename(p, q), fs') {
        CrashOfOne(fs1, Remove(m), fs');
      }
    }
  }

  lemma DeliverStepSession(c: Codec, lib: Library, base: Bytes, s: Sys, env: Env)
    requires Lossless(c) && SessionInv(c, lib, base, s) && Enabled(s, Deliver(env))
    ensures SessionInv(c, lib, base, Do(c, s, Deliver(env)))
  {
    hide Inv, DiskOk, SessionDisk, Covered;
    var s' := Do(c, s, Deliver(env));
    StepKeeps(c, s, Deliver(env));
    WholeRunIsACrash(s.fs, Feed(c, s.rs, s.fs, Encode(s.dataQ[0]), env).ops);
    DeliverKeepsIdentity(c, s, env);
    if s.dataQ[0].Chunk? {
      ChunkCrash(c, lib, base, s, env, s'.fs);
      SessionDiskIsOk(c, lib, s'.fs, base, s.src, s.chunkSize);
    } else {
      DoneCrash(c, lib, base, s, env, s'.fs);
    }
  }

  lemma DeliverKeepsIdentity(c: Codec, s: Sys, env: Env)
    requires Inv(c, s) && Enabled(s, Deliver(env))
    ensures var s' := Do(c, s, Deliver(env));
            && s'.rs.base == s.rs.base && s'.rs.header == s.rs.header
            && (s.dataQ[0].Chunk? ==> !s'.done && s'.err.None?)
            && (!s.dataQ[0].Chunk? && !s'.done ==> s'.fs == s.fs)
  {
    hide UniqueName, GetU64;
    if s.dataQ[0].Chunk? {
      var f := s.dataQ[0];
      assert Payload(s.dataQ) == f.payload + Payload(s.dataQ[1..]);
      assert |s.rs.hashed + Payload(s.dataQ)| == s.pos;
      FeedChunk(c, s.rs, s.fs, s.m, f.seqNo, f.payload, env);
    } else if s.dataQ[0].Done? {
      DoneMoves(c, s.rs, s.fs, env);
    }
  }

  lemma {:induction false} SessionRuns(c: Codec, lib: Library, base: Bytes, s: Sys, acts: seq<Action>)
    requires Lossless(c) && SessionInv(c, lib, base, s) && FullRuns(c, s, acts)
    ensures Runs(c, s, acts) && SessionInv(c, lib, base, Exec(c, s, acts))
    decreases |acts|
  {
    hide SessionInv, Do;
    if acts != [] {
      if acts[0].Deliver? {
        DeliverStepSession(c, lib, base, s, acts[0].env);
      } else {
        SenderStepSession(c, lib, base, s, acts[0]);
      }
      SessionRuns(c, lib, base, Do(c, s, acts[0]), acts[1..]);
    }
  }

  // ---------------------------------------------------------------- progress is kept

  /** How many chunks of the file the receiver holds. */
  function Stored(s: Sys): int {
    s.next - |SeqNos(s.dataQ)|
  }

  /** The disk holds the first Stored(s) chunks and a sidecar that says so. */
  ghost predicate Recorded(c: Codec, base: Bytes, s: Sys) {
    var k, p := Stored(s), PartialPath(base);
    && 0 <= k < I64_LIMIT && p in s.fs && |s.fs[p]| == Covered(k, s.chunkSize, |s.src|)
    && MetaView(c, s.fs, base) == Some(PartialMeta(c.sha(s.src), s.chunkSize, |s.fs[p]|, k))
  }

  lemma SenderStepRecorded(c: Codec, base: Bytes, s: Sys, a: Action)
    requires Inv(c, s) && Enabled(s, a) && !a.Deliver? && Recorded(c, base, s)
    ensures Recorded(c, base, Do(c, s, a))
  {
    hide Covered, Inv, SeqNos;
    var s' := Do(c, s, a);
    if s'.dataQ != s.dataQ {
      QueueSnoc(s.dataQ, s'.dataQ[|s'.dataQ| - 1]);
      assert s'.dataQ == s.dataQ + [s'.dataQ[|s'.dataQ| - 1]];
    }
    SenderKeepsDisk(c, s, a);
  }

  lemma SenderKeepsDisk(c: Codec, s: Sys, a: Action)
    requires Inv(c, s) && Enabled(s, a) && !a.Deliver?
    ensures var s' := Do(c, s, a);
            s'.fs == s.fs && s'.src == s.src && s'.chunkSize == s.chunkSize
            && (s'.dataQ == s.dataQ ==> s'.next == s.next)
            && (s'.dataQ != s.dataQ ==>
                  var f := s'.dataQ[|s'.dataQ| - 1];
                  |s'.dataQ| > 0 && s'.next == s.next + if f.Chunk? then 1 else 0)
  {
  }

  /** The oldest queued chunk is number Stored(s), and taking it leaves one more stored. */
  lemma OldestIsNext(c: Codec, s: Sys)
    requires Inv(c, s) && s.dataQ != [] && s.dataQ[0].Chunk?
    ensures s.dataQ[0].seqNo == Stored(s)
    ensures s.next - |SeqNos(s.dataQ[1..])| == Stored(s) + 1
  {
    SuffixOfRange(s.ackQ, SeqNos(s.dataQ), s.base, s.next);
    assert SeqNos(s.dataQ) == [s.dataQ[0].seqNo] + SeqNos(s.dataQ[1..]);
    assert SeqNos(s.dataQ)[0] == s.next - |SeqNos(s.dataQ)|;
  }

  lemma AppendedAndRecorded(c: Codec, fs: Files, base: Bytes, payload: Bytes, m: PartialMeta)
    requires Lossless(c) && PartialPath(base) in fs
    ensures var fs' := ApplyAll(fs, [Append(PartialPath(base), payload)] + [Write(MetaPath(base), c.encMeta(m))]);
            && PartialPath(base) in fs' && fs'[PartialPath(base)] == fs[PartialPath(base)] + payload
            && MetaView(c, fs', base) == Some(m)
  {
    var p, q := PartialPath(base), MetaPath(base);
    FinalIsApart({}, base);
    ApplyFirst(fs, Append(p, payload), [Write(q, c.encMeta(m))]);
    ApplyOne(Apply(fs, Append(p, payload)), Write(q, c.encMeta(m)));
  }

  lemma ChunkRecorded(c: Codec, lib: Library, base: Bytes, s: Sys, env: Env)
    requires Lossless(c) && SessionInv(c, lib, base, s) && Enabled(s, Deliver(env)) && s.dataQ[0].Chunk?
    requires env.metaWrite.Written?
    ensures Recorded(c, base, Do(c, s, Deliver(env)))
  {
    hide Covered, Feed, MemFeed, Wrap64, Inv, WholeChunks, SessionDisk, DiskOk, SeqNos, MetaView, Encode;
    var f := s.dataQ[0];
    OldestChunk(c, s);
    OldestIsNext(c, s);
    assert Encode(f) == BuildChunk(f.seqNo, f.payload) by { EncodedChunk(f); }
    FeedChunk(c, s.rs, s.fs, s.m, f.seqNo, f.payload, env);
    NextSidecarIsSane(lib, s.src, c.sha(s.src), s.chunkSize, f.seqNo, |s.rs.hashed| + |f.payload|);
    var m := PartialMeta(c.sha(s.src), s.chunkSize, |s.rs.hashed| + |f.payload|, f.seqNo + 1);
    AppendedAndRecorded(c, s.fs, base, f.payload, m);
    KeyFits(f.seqNo, s.chunkSize, |s.src|);
  }

  lemma KeyFits(q: nat, size: nat, n: nat)
    requires size >= 1 && q * size < n < I64_LIMIT
    ensures q + 1 < I64_LIMIT
  {
    if q >= n {
      MulMono(1, size, q);
    }
  }

  /** All sidecar writes work, and the transfer is not completed. */
  predicate SidecarsWritten(acts: seq<Action>) {
    forall i :: 0 <= i < |acts| ==> acts[i].Deliver? ==> acts[i].env.metaWrite.Written?
  }

  lemma DeliverRecorded(c: Codec, lib: Library, base: Bytes, s: Sys, env: Env)
    requires Lossless(c) && SessionInv(c, lib, base, s) && Enabled(s, Deliver(env)) && Recorded(c, base, s)
    requires env.metaWrite.Written? && !Do(c, s, Deliver(env)).done
    ensures Recorded(c, base, Do(c, s, Deliver(env)))
  {
    if s.dataQ[0].Chunk? {
      ChunkRecorded(c, lib, base, s, env);
    } else {
      hide Feed, MemFeed, Inv, SessionDisk, DiskOk, Covered, MetaView, Encode;
      assert Inv(c, s);
      DeliverKeepsIdentity(c, s, env);
      assert SeqNos(s.dataQ) == SeqNos(s.dataQ[1..]);
    }
  }

  lemma {:induction false} RunRecorded(c: Codec, lib: Library, base: Bytes, s: Sys, acts: seq<Action>)
    requires Lossless(c) && SessionInv(c, lib, base, s) && FullRuns(c, s, acts) && Recorded(c, base, s)
    requires SidecarsWritten(acts) && Runs(c, s, acts) && !Exec(c, s, acts).done
    ensures Recorded(c, base, Exec(c, s, acts))
    decreases |acts|
  {
    hide SessionInv, Do, Recorded;
    if acts != [] {
      var s' := Do(c, s, acts[0]);
      if acts[0].Deliver? {
        DeliverStepSession(c, lib, base, s, acts[0].env);
        if s'.done {
          DoneStays(c, lib, base, s', acts[1..]);
        }
        DeliverRecorded(c, lib, base, s, acts[0].env);
      } else {
        SenderStepSession(c, lib, base, s, acts[0]);
        assert Inv(c, s) by { SessionHasInv(c, lib, base, s); }
        SenderStepRecorded(c, base, s, acts[0]);
      }
      RunRecorded(c, lib, base, s', acts[1..]);
    }
  }

  lemma SessionHasInv(c: Codec, lib: Library, base: Bytes, s: Sys)
    requires SessionInv(c, lib, base, s)
    ensures Inv(c, s)
  {
  }

  /** A completed transfer takes no further step, so it stays completed. */
  lemma DoneStays(c: Codec, lib: Library, base: Bytes, s: Sys, acts: seq<Action>)
    requires SessionInv(c, lib, base, s) && s.done && Runs(c, s, acts)
    ensures Exec(c, s, acts).done
  {
    hide Do, DiskOk, WholeChunks, InLibrary;
    if acts != [] {
      assert false;
    }
  }

  // ---------------------------------------------------------------- many sessions

  /** One attempt to send a file under the name: what was sent, and what the wire did before the cut. */
  datatype Session = Session(
    src: Bytes, seekable: bool, breaksAt: Option<nat>, chunkSize: nat, window: nat, env: Env, acts: seq<Action>)

  ghost predicate Honest(c: Codec, lib: Library, x: Session) {
    InLibrary(c, lib, x.src) && |x.src| < I64_LIMIT && 1 <= x.chunkSize <= SendLoop.MAX_CHUNK_SIZE && x.window >= 1
  }

  /** The sender gets to where it is told to go on. */
  predicate Positions(x: Session, st: Step) {
    !SeekFails(StartOf(st), x.chunkSize, |x.src|, x.seekable, x.breaksAt)
  }

  /** fs' is a disk left by stopping in state s, or inside the handling of the next frame. */
  ghost predicate CutAt(c: Codec, s: Sys, fs': Files) {
    || fs' == s.fs
    || (exists env: Env :: Enabled(s, Deliver(env)) && CrashDuring(s.fs, DeliverOps(c, s, env), fs'))
  }

  function DeliverOps(c: Codec, s: Sys, env: Env): seq<DiskOp>
    requires s.dataQ != []
  {
    Feed(c, s.rs, s.fs, Encode(s.dataQ[0]), env).ops
  }

  ghost predicate CutAfter(c: Codec, s0: Sys, acts: seq<Action>, fs': Files) {
    FullRuns(c, s0, acts) && Runs(c, s0, acts) && CutAt(c, Exec(c, s0, acts), fs')
  }

  /** fs' is a disk the session can leave when it is cut off at any point, cannot be positioned, or ends by itself. */
  ghost predicate Leaves(c: Codec, name: Bytes, fs: Files, x: Session, fs': Files) {
    && x.chunkSize >= 1
    && var st := Greet(c, fs, x.src, name, x.chunkSize, x.env);
       || CrashDuring(fs, st.ops, fs')
       || (st.err.None? && Positions(x, st) && CutAfter(c, Connected(st, fs, x.src, x.chunkSize, x.window), x.acts, fs'))
  }

  lemma SessionStarts(c: Codec, lib: Library, name: Bytes, fs: Files, x: Session)
    requires Lossless(c) && Honest(c, lib, x) && DiskOk(c, lib, fs, Sanitise(name))
    requires var st := Greet(c, fs, x.src, name, x.chunkSize, x.env); st.err.None? && Positions(x, st)
    ensures SessionInv(c, lib, Sanitise(name), Connect(c, fs, x.src, name, x.chunkSize, x.window, x.env))
  {
    hide Sanitise, Greet, Inv;
    OpensExactly(c, lib, fs, x.src, name, x.chunkSize, x.window, x.env, x.seekable, x.breaksAt);
    var s := Connect(c, fs, x.src, name, x.chunkSize, x.window, x.env);
    SessionDiskIsOk(c, lib, s.fs, Sanitise(name), x.src, x.chunkSize);
  }

  /** A session opens with as many chunks recorded as it tells the sender to skip. */
  lemma OpensRecorded(c: Codec, lib: Library, name: Bytes, fs: Files, x: Session)
    requires Lossless(c) && Honest(c, lib, x) && DiskOk(c, lib, fs, Sanitise(name))
    requires var st := Greet(c, fs, x.src, name, x.chunkSize, x.env); st.err.None? && Positions(x, st)
    ensures Recorded(c, Sanitise(name), Connect(c, fs, x.src, name, x.chunkSize, x.window, x.env))
  {
    hide Sanitise, SessionDisk, DiskOk, Covered, ChunkCount, Greet, MetaView;
    var base := Sanitise(name);
    var st := Greet(c, fs, x.src, name, x.chunkSize, x.env);
    OpensHolding(c, lib, fs, x.src, name, x.chunkSize, x.env);
    SidecarAtStart(c, lib, fs, x.src, name, x.chunkSize, x.env);
  }

  /** The sidecar a session starts from: the one it resumes by, or a new one that counts nothing. */
  lemma SidecarAtStart(c: Codec, lib: Library, fs: Files, src: Bytes, name: Bytes, chunkSize: nat, env: Env)
    requires Lossless(c) && InLibrary(c, lib, src) && |src| < I64_LIMIT && chunkSize >= 1
    requires DiskOk(c, lib, fs, Sanitise(name)) && Greet(c, fs, src, name, chunkSize, env).err.None?
    ensures var st := Greet(c, fs, src, name, chunkSize, env);
            var k := StartOf(st);
            && k < I64_LIMIT
            && MetaView(c, ApplyAll(fs, st.ops), Sanitise(name))
               == Some(PartialMeta(c.sha(src), chunkSize, Covered(k, chunkSize, |src|), k))
  {
    hide Sanitise, SessionDisk, DiskOk, Covered, ChunkCount, CheckPartial, MetaView;
    var base := Sanitise(name);
    var hdr := HeaderFor(c, src, name, chunkSize);
    var frame := [TAG_FILE_HEADER] + c.encHeader(hdr);
    assert frame[1..] == c.encHeader(hdr);
    var st := Greet(c, fs, src, name, chunkSize, env);
    if st.resumes == [] {
      FreshSidecar(c, fs, base, src, chunkSize);
    } else {
      RecordedAgain(c, lib, fs, base, src, hdr);
    }
  }

  lemma FreshSidecar(c: Codec, fs: Files, base: Bytes, src: Bytes, chunkSize: nat)
    requires Lossless(c)
    ensures var m := PartialMeta(c.sha(src), chunkSize, 0, 0);
            MetaView(c, ApplyAll(fs, [Create(PartialPath(base))] + [Write(MetaPath(base), c.encMeta(m))]), base) == Some(m)
    ensures Covered(0, chunkSize, |src|) == 0
  {
    var p, q := PartialPath(base), MetaPath(base);
    FinalIsApart({}, base);
    var w := Write(q, c.encMeta(PartialMeta(c.sha(src), chunkSize, 0, 0)));
    ApplyFirst(fs, Create(p), [w]);
    ApplyOne(fs[p := []], w);
  }

  lemma RecordedAgain(c: Codec, lib: Library, fs: Files, base: Bytes, src: Bytes, hdr: FileHeader)
    requires InLibrary(c, lib, src) && |src| < I64_LIMIT && hdr.sha == c.sha(src) && hdr.chunkSize >= 1
    requires DiskOk(c, lib, fs, base) && CheckPartial(c, fs, base, hdr).0 > 0
    ensures var (k, n) := CheckPartial(c, fs, base, hdr);
            && k < I64_LIMIT && n == Covered(k, hdr.chunkSize, |src|)
            && MetaView(c, fs, base) == Some(PartialMeta(hdr.sha, hdr.chunkSize, n, k))
  {
    CheckPartialSound(c, lib, fs, src, base, hdr);
    var m := MetaView(c, fs, base).value;
    assert Sane(lib, m);
    if m.chunksDone - 1 >= |src| {
      MulMono(1, hdr.chunkSize, m.chunksDone - 1);
    }
  }

  /** What is recorded is what the next session resumes with. */
  lemma RecordedIsResumed(c: Codec, fs: Files, src: Bytes, name: Bytes, chunkSize: nat, k: nat)
    requires Lossless(c) && chunkSize >= 1 && k < I64_LIMIT
    requires var p, base := PartialPath(Sanitise(name)), Sanitise(name);
             p in fs && fs[p] == src[..Covered(k, chunkSize, |src|)]
             && MetaView(c, fs, base) == Some(PartialMeta(c.sha(src), chunkSize, |fs[p]|, k))
    ensures var st := Greet(c, fs, src, name, chunkSize, ALL_WELL);
            && st.err.None? && st.resumes == (if k == 0 then [] else [k])
            && st.rs.hashed == src[..Covered(k, chunkSize, |src|)]
  {
    hide Sanitise, ChunkCount, CheckPartial;
    var hdr := HeaderFor(c, src, name, chunkSize);
    var frame := [TAG_FILE_HEADER] + c.encHeader(hdr);
    assert frame[1..] == c.encHeader(hdr);
    CheckPartialExact(c, fs, Sanitise(name), hdr);
  }

  /**
   * Progress is kept: cut a session between two frames, while its sidecar writes work, and the next one for
   * the same file resumes with exactly the chunks delivered so far, from this session and those before it.
   */
  lemma ProgressIsKept(c: Codec, lib: Library, name: Bytes, fs: Files, x: Session)
    requires Lossless(c) && Honest(c, lib, x) && DiskOk(c, lib, fs, Sanitise(name))
    requires var st := Greet(c, fs, x.src, name, x.chunkSize, x.env); st.err.None? && Positions(x, st)
    requires var s0 := Connect(c, fs, x.src, name, x.chunkSize, x.window, x.env);
             FullRuns(c, s0, x.acts) && Runs(c, s0, x.acts) && SidecarsWritten(x.acts) && !Exec(c, s0, x.acts).done
    ensures var s := Exec(c, Connect(c, fs, x.src, name, x.chunkSize, x.window, x.env), x.acts);
            var st := Greet(c, s.fs, x.src, name, x.chunkSize, ALL_WELL);
            && 0 <= Stored(s) < U64
            && st.err.None? && st.resumes == (if Stored(s) == 0 then [] else [Stored(s)])
            && st.rs.hashed == x.src[..Covered(Stored(s), x.chunkSize, |x.src|)]
  {
    hide Sanitise, Greet, Connect, DiskOk, Covered, Stored;
    var base := Sanitise(name);
    var s0 := Connect(c, fs, x.src, name, x.chunkSize, x.window, x.env);
    SessionStarts(c, lib, name, fs, x);
    OpensRecorded(c, lib, name, fs, x);
    RunRecorded(c, lib, base, s0, x.acts);
    SessionRuns(c, lib, base, s0, x.acts);
    SourceFixed(c, s0, x.acts);
    assert s0.src == x.src && s0.chunkSize == x.chunkSize by { ConnectIdentity(c, fs, name, x); }
    var s := Exec(c, s0, x.acts);
    PrefixOfSource(c, lib, base, s);
    RecordedIsResumed(c, s.fs, x.src, name, x.chunkSize, Stored(s));
  }

  lemma ConnectIdentity(c: Codec, fs: Files, name: Bytes, x: Session)
    requires x.chunkSize >= 1
    ensures var s := Connect(c, fs, x.src, name, x.chunkSize, x.window, x.env); s.src == x.src && s.chunkSize == x.chunkSize
  {
  }

  lemma PrefixOfSource(c: Codec, lib: Library, base: Bytes, s: Sys)
    requires SessionInv(c, lib, base, s) && !s.done && Recorded(c, base, s)
    ensures s.fs[PartialPath(base)] == s.src[..Covered(Stored(s), s.chunkSize, |s.src|)]
  {
    hide Inv, WholeChunks, DiskOk, Stored;
  }

  /** Crash safety of one session: whatever disk it leaves, the next session can rely on it. */
  lemma SessionLeavesDiskOk(c: Codec, lib: Library, name: Bytes, fs: Files, x: Session, fs': Files)
    requires Lossless(c) && Honest(c, lib, x) && DiskOk(c, lib, fs, Sanitise(name))
    requires Leaves(c, name, fs, x, fs')
    ensures DiskOk(c, lib, fs', Sanitise(name))
  {
    hide Sanitise, Greet, Connected, DiskOk, SessionDisk, Feed, CrashDuring, Inv;
    var base := Sanitise(name);
    var st := Greet(c, fs, x.src, name, x.chunkSize, x.env);
    if CrashDuring(fs, st.ops, fs') {
      HeaderCrash(c, lib, fs, x.src, name, x.chunkSize, x.env, fs');
    } else {
      SessionStarts(c, lib, name, fs, x);
      var s0 := Connect(c, fs, x.src, name, x.chunkSize, x.window, x.env);
      SessionRuns(c, lib, base, s0, x.acts);
      var s := Exec(c, s0, x.acts);
      if fs' != s.fs {
        var env: Env :| Enabled(s, Deliver(env)) && CrashDuring(s.fs, DeliverOps(c, s, env), fs');
        if s.dataQ[0].Chunk? {
          ChunkCrash(c, lib, base, s, env, fs');
          SessionDiskIsOk(c, lib, fs', base, s.src, s.chunkSize);
        } else {
          DoneCrash(c, lib, base, s, env, fs');
        }
      }
    }
  }

  /** disks[i + 1] is left by the i-th session, started on disks[i]. */
  ghost predicate History(c: Codec, lib: Library, name: Bytes, xs: seq<Session>, disks: seq<Files>) {
    && |disks| == |xs| + 1
    && forall i :: 0 <= i < |xs| ==> Honest(c, lib, xs[i]) && Leaves(c, name, disks[i], xs[i], disks[i + 1])
  }

  lemma {:induction false} HistoryKeepsDiskOk(
    c: Codec, lib: Library, name: Bytes, xs: seq<Session>, disks: seq<Files>, k: nat)
    requires Lossless(c) && History(c, lib, name, xs, disks) && k <= |xs|
    requires DiskOk(c, lib, disks[0], Sanitise(name))
    ensures DiskOk(c, lib, disks[k], Sanitise(name))
    decreases k
  {
    hide Leaves, DiskOk, Sanitise, Honest, Lossless;
    if k > 0 {
      HistoryKeepsDiskOk(c, lib, name, xs, disks, k - 1);
      SessionLeavesDiskOk(c, lib, name, disks[k - 1], xs[k - 1], disks[k]);
    }
  }

  /**
   * Crash-safe resume. Start from a directory without a sidecar for the name, let any number of sessions
   * for any files under that name be cut off anywhere, then open one more: it holds exactly the chunks it
   * tells the sender to skip. If the sender can be positioned, it stands right behind them, and if nothing
   * interrupts the session, it ends with the complete file in place. SeekPastEnd says when it can be.
   */
  lemma ResumeIsCrashSafe(
    c: Codec, lib: Library, name: Bytes, xs: seq<Session>, disks: seq<Files>, last: Session)
    requires Lossless(c) && History(c, lib, name, xs, disks) && Honest(c, lib, last)
    requires MetaPath(Sanitise(name)) !in disks[0]
    requires Greet(c, disks[|xs|], last.src, name, last.chunkSize, last.env).err.None?
    ensures var st := Greet(c, disks[|xs|], last.src, name, last.chunkSize, last.env);
            var s := Connect(c, disks[|xs|], last.src, name, last.chunkSize, last.window, last.env);
            var p := PartialPath(Sanitise(name));
            && s.start == StartOf(st)
            && p in s.fs && s.fs[p] == last.src[..Covered(s.start, last.chunkSize, |last.src|)]
            && (Positions(last, st) ==>
                  && SendFrom(StartOf(st), last.chunkSize, |last.src|) == Covered(s.start, last.chunkSize, |last.src|)
                  && (Runs(c, s, last.acts) && Uninterrupted(last.acts)
                      && (forall a: Action :: !Enabled(Exec(c, s, last.acts), a)) ==>
                        var e := Exec(c, s, last.acts);
                        e.done && e.rs.final in e.fs && e.fs[e.rs.final] == last.src))
  {
    hide Sanitise, Leaves, Greet, Inv, SendFrom, Covered;
    HistoryKeepsDiskOk(c, lib, name, xs, disks, |xs|);
    var fs := disks[|xs|];
    OpensHolding(c, lib, fs, last.src, name, last.chunkSize, last.env);
    if Positions(last, Greet(c, fs, last.src, name, last.chunkSize, last.env)) {
      OpensExactly(c, lib, fs, last.src, name, last.chunkSize, last.window, last.env, last.seekable, last.breaksAt);
      var s := Connect(c, fs, last.src, name, last.chunkSize, last.window, last.env);
      if Runs(c, s, last.acts) && Uninterrupted(last.acts) && forall a: Action :: !Enabled(Exec(c, s, last.acts), a) {
        Delivery(c, s, last.acts);
      }
    }
  }

  /**
   * Fresh delivery: with no sidecar in the way, for every file, window, chunk size and every pattern of
   * short reads, a transfer nobody interrupts takes at most Work steps and ends with exactly the source
   * bytes, in the file of the disk receiver and in the buffer of the in-memory one.
   */
  lemma FreshDelivery(
    c: Codec, fs: Files, src: Bytes, name: Bytes, windowSize: int, chunkSize: int, env: Env, acts: seq<Action>)
    requires Lossless(c) && |src| < I64_LIMIT && MetaPath(Sanitise(name)) !in fs
    requires Greet(c, fs, src, name, ClampChunkSize(chunkSize), env).err.None?
    requires var s := Connect(c, fs, src, name, ClampChunkSize(chunkSize), ClampWindow(windowSize), env);
             Runs(c, s, acts) && Uninterrupted(acts) && forall a: Action :: !Enabled(Exec(c, s, acts), a)
    ensures var s := Connect(c, fs, src, name, ClampChunkSize(chunkSize), ClampWindow(windowSize), env);
            var e := Exec(c, s, acts);
            && s.start == 0 && |acts| <= Work(s)
            && e.done && e.rs.final in e.fs && e.fs[e.rs.final] == src
            && e.m.done && e.m.buf == src
  {
    hide Sanitise, Inv, Greet;
    var lib: Library := map[c.sha(src) := src];
    var cs, w := ClampChunkSize(chunkSize), ClampWindow(windowSize);
    NoSidecarNoResume(c, fs, src, name, cs, env);
    OpensExactly(c, lib, fs, src, name, cs, w, env, false, None);
    Delivery(c, Connect(c, fs, src, name, cs, w, env), acts);
  }

  lemma NoSidecarNoResume(c: Codec, fs: Files, src: Bytes, name: Bytes, chunkSize: nat, env: Env)
    requires Lossless(c) && chunkSize >= 1 && MetaPath(Sanitise(name)) !in fs
    ensures Greet(c, fs, src, name, chunkSize, env).resumes == []
  {
    hide Sanitise, ChunkCount;
    var frame := [TAG_FILE_HEADER] + c.encHeader(HeaderFor(c, src, name, chunkSize));
    assert frame[1..] == c.encHeader(HeaderFor(c, src, name, chunkSize));
  }

  /** In a fresh session the in-memory receiver is where its own handling of the header frame puts it. */
  lemma TwinHandledHeader(c: Codec, fs: Files, src: Bytes, name: Bytes, chunkSize: nat, window: nat, env: Env)
    requires Lossless(c) && chunkSize >= 1
    requires var st := Greet(c, fs, src, name, chunkSize, env); st.err.None? && st.resumes == []
    ensures var frame := [TAG_FILE_HEADER] + c.encHeader(HeaderFor(c, src, name, chunkSize));
            var st := MemFeed(c, Mem(None, [], [], false, []), frame, env.ackOk);
            st.err.None? && st.m == Connect(c, fs, src, name, chunkSize, window, env).m
  {
    hide Sanitise, ChunkCount;
    var hdr := HeaderFor(c, src, name, chunkSize);
    var frame := [TAG_FILE_HEADER] + c.encHeader(hdr);
    assert frame[1..] == c.encHeader(hdr);
  }

  // ---------------------------------------------------------------- where the sender seeks

  /**
   * The offset lies past the end exactly when all chunks of a file not a multiple of the chunk size are
   * there. A file can be positioned unless the offset leaves the 64-bit range, a stream exactly when the
   * offset is not past its end and its producer does not fail before it.
   */
  lemma SeekPastEnd(c: Codec, lib: Library, fs: Files, name: Bytes, x: Session)
    requires Lossless(c) && Honest(c, lib, x) && DiskOk(c, lib, fs, Sanitise(name))
    requires Greet(c, fs, x.src, name, x.chunkSize, x.env).err.None?
    ensures var st := Greet(c, fs, x.src, name, x.chunkSize, x.env);
            var offset := StartOf(st) * x.chunkSize;
            && (offset > |x.src| <==> StartOf(st) == ChunkCount(|x.src|, x.chunkSize) && |x.src| % x.chunkSize != 0)
            && (!Positions(x, st) <==>
                  if x.seekable then offset >= I64_LIMIT
                  else offset > |x.src| || (x.breaksAt.Some? && x.breaksAt.value < offset))
  {
    hide Sanitise, SessionDisk, DiskOk, ChunkCount, Covered, SeekFails, Greet;
    OpensHolding(c, lib, fs, x.src, name, x.chunkSize, x.env);
    var k := StartOf(Greet(c, fs, x.src, name, x.chunkSize, x.env));
    PastEnd(k, x.chunkSize, |x.src|);
    SeekLands(k, x.chunkSize, |x.src|, x.seekable, x.breaksAt);
  }

  // ---------------------------------------------------------------- such an offset does come up

  const NO_FILES: Files := map[]

  /** One session that stores the only, short chunk of a file and is cut off before TransferDone. */
  function ShortSession(src: Bytes, chunkSize: nat): Session {
    Session(src, false, None, chunkSize, 1, ALL_WELL, [Read(|src|, true), Deliver(ALL_WELL)])
  }

  /** What it leaves: the whole file as partial, and a sidecar that counts its one chunk. */
  function AfterShort(c: Codec, src: Bytes, name: Bytes, chunkSize: nat): Files {
    var base := Sanitise(name);
    map[PartialPath(base) := src, MetaPath(base) := c.encMeta(PartialMeta(c.sha(src), chunkSize, |src|, 1))]
  }

  function Received(c: Codec, src: Bytes, name: Bytes, chunkSize: nat, bytes: Bytes): Recv
    requires chunkSize >= 1
  {
    var base := Sanitise(name);
    Recv(Some(HeaderFor(c, src, name, chunkSize)), base, base, Open(PartialPath(base)), bytes, |bytes|, 0)
  }

  lemma GreetsFresh(c: Codec, src: Bytes, name: Bytes, chunkSize: nat)
    requires Lossless(c) && chunkSize >= 1
    ensures var st := Greet(c, NO_FILES, src, name, chunkSize, ALL_WELL);
            var base := Sanitise(name);
            && st.err.None? && st.resumes == [] && st.rs == Received(c, src, name, chunkSize, [])
            && ApplyAll(NO_FILES, st.ops) == map[PartialPath(base) := [],
                 MetaPath(base) := c.encMeta(PartialMeta(c.sha(src), chunkSize, 0, 0))]
  {
    hide Sanitise, ChunkCount;
    var hdr := HeaderFor(c, src, name, chunkSize);
    var frame := [TAG_FILE_HEADER] + c.encHeader(hdr);
    assert frame[1..] == c.encHeader(hdr);
    var base := Sanitise(name);
    var p, q := PartialPath(base), MetaPath(base);
    FinalIsApart({}, base);
    var w := Write(q, c.encMeta(PartialMeta(c.sha(src), chunkSize, 0, 0)));
    ApplyFirst(NO_FILES, Create(p), [w]);
    ApplyOne(NO_FILES[p := []], w);
  }

  lemma StoresShort(c: Codec, src: Bytes, name: Bytes, chunkSize: nat)
    requires Lossless(c) && 0 < |src| <= chunkSize && |src| < I64_LIMIT
    ensures var s0 := Connect(c, NO_FILES, src, name, chunkSize, 1, ALL_WELL);
            var acts := ShortSession(src, chunkSize).acts;
            FullRuns(c, s0, acts) && Runs(c, s0, acts) && Exec(c, s0, acts).fs == AfterShort(c, src, name, chunkSize)
  {
    hide Sanitise, ChunkCount, Greet, Feed;
    var base := Sanitise(name);
    var p, q := PartialPath(base), MetaPath(base);
    FinalIsApart({}, base);
    GreetsFresh(c, src, name, chunkSize);
    var s0 := Connect(c, NO_FILES, src, name, chunkSize, 1, ALL_WELL);
    var a1, a2 := Read(|src|, true), Deliver(ALL_WELL);
    var s1 := Do(c, s0, a1);
    assert s1.dataQ == [Chunk(0, src)] by { assert src[0..|src|] == src; }
    var rs := Received(c, src, name, chunkSize, []);
    assert Feed(c, rs, s1.fs, BuildChunk(0, src), ALL_WELL) == StoreChunk(c, rs, 0, src, ALL_WELL) by {
      StoresFirst(c, rs, s1.fs, src);
    }
    var m := PartialMeta(c.sha(src), chunkSize, |src|, 1);
    ShortOnDisk(s1.fs, p, q, src, c.encMeta(m));
    var s2 := Do(c, s1, a2);
    assert s2.fs == AfterShort(c, src, name, chunkSize);
    var acts := ShortSession(src, chunkSize).acts;
    assert acts[1..] == [a2] && [a2][1..] == [];
    OneMoreFull(c, s1, a2, []);
    OneMoreFull(c, s0, a1, [a2]);
  }

  lemma OneMoreFull(c: Codec, s: Sys, a: Action, rest: seq<Action>)
    requires Enabled(s, a) && FullRead(s, a) && FullRuns(c, Do(c, s, a), rest) && Runs(c, Do(c, s, a), rest)
    ensures FullRuns(c, s, [a] + rest) && Runs(c, s, [a] + rest)
    ensures Exec(c, s, [a] + rest) == Exec(c, Do(c, s, a), rest)
  {
    hide Do, Enabled;
    assert ([a] + rest)[1..] == rest;
  }

  lemma ShortOnDisk(fs: Files, p: Bytes, q: Bytes, src: Bytes, raw: Bytes)
    requires p != q && fs.Keys == {p, q} && fs[p] == []
    ensures ApplyAll(fs, [Append(p, src)] + [Write(q, raw)]) == map[p := src, q := raw]
  {
    ApplyFirst(fs, Append(p, src), [Write(q, raw)]);
    ApplyOne(Apply(fs, Append(p, src)), Write(q, raw));
    assert [] + src == src;
  }

  lemma StoresFirst(c: Codec, rs: Recv, fs: Files, src: Bytes)
    requires rs.header.Some? && rs.handle.Open? && rs.received == 0 && |src| <= rs.header.value.size
    ensures Feed(c, rs, fs, BuildChunk(0, src), ALL_WELL) == StoreChunk(c, rs, 0, src, ALL_WELL)
  {
    hide GetU64;
    ChunkBody(0, src);
  }

  lemma ResumesPastShort(c: Codec, src: Bytes, name: Bytes, chunkSize: nat)
    requires Lossless(c) && 0 < |src| <= chunkSize
    ensures var st := Greet(c, AfterShort(c, src, name, chunkSize), src, name, chunkSize, ALL_WELL);
            st.err.None? && st.resumes == [1]
  {
    hide Sanitise, ChunkCount;
    var hdr := HeaderFor(c, src, name, chunkSize);
    var frame := [TAG_FILE_HEADER] + c.encHeader(hdr);
    assert frame[1..] == c.encHeader(hdr);
    FinalIsApart({}, Sanitise(name));
  }

  /** For every file of one short chunk there is a history after which the next session cannot go on from a stream. */
  lemma StreamCannotResume(c: Codec, src: Bytes, name: Bytes, chunkSize: nat)
    requires Lossless(c) && 0 < |src| < chunkSize <= SendLoop.MAX_CHUNK_SIZE
    ensures exists lib: Library, xs: seq<Session>, disks: seq<Files> ::
              && History(c, lib, name, xs, disks) && disks[0] == NO_FILES
              && InLibrary(c, lib, src)
              && Greet(c, disks[|xs|], src, name, chunkSize, ALL_WELL).err.None?
              && var s := Connect(c, disks[|xs|], src, name, chunkSize, 1, ALL_WELL);
                 s.start == ChunkCount(|src|, chunkSize) == 1 && SeekFails(1, chunkSize, |src|, false, None)
  {
    hide Sanitise, Greet;
    var lib: Library := map[c.sha(src) := src];
    var x := ShortSession(src, chunkSize);
    var disks := [NO_FILES, AfterShort(c, src, name, chunkSize)];
    GreetsFresh(c, src, name, chunkSize);
    StoresShort(c, src, name, chunkSize);
    ResumesPastShort(c, src, name, chunkSize);
    ChunkCountIs(|src|, chunkSize, 1);
    assert Leaves(c, name, disks[0], x, disks[1]);
    assert History(c, lib, name, [x], disks);
  }

  lemma PastEnd(k: nat, size: nat, n: nat)
    requires size >= 1 && (k > 0 ==> (k - 1) * size < n)
    ensures k * size > n <==> k == ChunkCount(n, size) && n % size != 0
  {
    assert k * size == (k - 1) * size + size;
    if k * size >= n && k > 0 {
      ChunkCountIs(n, size, k);
      if k * size == n {
        DivUnique(n, size, k, 0);
      } else {
        DivUnique(n, size, k - 1, n - (k - 1) * size);
      }
    } else if k == ChunkCount(n, size) {
      var d := n + size - 1;
      assert d == k * size + d % size;
    }
  }
}
