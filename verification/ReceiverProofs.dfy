/** What holds of the receivers over every sequence of frames a peer can send. */
module ReceiverProofs {
  import opened Prelude
  import opened Frames
  import opened Names
  import opened Receiver

  datatype Input = Input(frame: Bytes, env: Env)

  datatype Trace = Trace(rs: Recv, fs: Files, acks: seq<SeqNo>, done: bool, err: Option<ErrClass>)

  predicate IsHeader(frame: Bytes) {
    frame != [] && frame[0] == TAG_FILE_HEADER
  }

  /** Frames are fed one after the other until the first error or completion. */
  function RunDisk(c: Codec, rs: Recv, fs: Files, ins: seq<Input>): Trace
    decreases |ins|
  {
    if ins == [] then Trace(rs, fs, [], false, None)
    else
      var s := Feed(c, rs, fs, ins[0].frame, ins[0].env);
      var fs' := ApplyAll(fs, s.ops);
      if s.done || s.err.Some? then Trace(s.rs, fs', s.acks, s.done, s.err)
      else
        var t := RunDisk(c, s.rs, fs', ins[1..]);
        t.(acks := s.acks + t.acks)
  }

  // ---------------------------------------------------------------- paths never collide

  /** The final path is never the partial or the meta file of the same transfer. */
  lemma FinalIsApart(existing: set<Bytes>, base: Bytes)
    ensures UniqueName(existing, base) != PartialPath(base)
    ensures UniqueName(existing, base) != MetaPath(base)
    ensures PartialPath(base) != MetaPath(base)
  {
    var k := |Base(base)|;
    assert (base + PARTIAL_SUFFIX)[k] == DOT && (base + META_SUFFIX)[k] == DOT by {
      if k < |base| {
        assert base[k..] == Ext(base);
        assert base[k] == Ext(base)[0];
      }
    }
    var r := UniqueName(existing, base);
    if base in existing {
      var n: nat :| r == Candidate(base, n);
      assert r[k] == SPACE;
    }
  }

  // ---------------------------------------------------------------- bookkeeping

  /** Counter, running hash and partial file agree, and the announced size is not exceeded. */
  ghost predicate Booked(rs: Recv, fs: Files) {
    && rs.header.Some?
    && rs.final == rs.base
    && rs.handle == Open(PartialPath(rs.base))
    && PartialPath(rs.base) in fs
    && fs[PartialPath(rs.base)] == rs.hashed
    && rs.received == |rs.hashed| <= rs.header.value.size
  }

  ghost predicate SameExcept(fs: Files, fs': Files, paths: set<Bytes>) {
    forall p :: p !in paths ==> (p in fs <==> p in fs') && (p in fs ==> fs'[p] == fs[p])
  }

  lemma BooksOpenFresh(c: Codec, rs: Recv, fs: Files, data: Bytes, env: Env)
    requires var s := HandleHeader(c, rs, fs, data, env); s.err.None? && s.resumes == []
    requires c.decHeader(data).value.size >= 0
    ensures var s := HandleHeader(c, rs, fs, data, env);
            Booked(s.rs, ApplyAll(fs, s.ops)) && s.rs.hashed == [] && s.rs.header == c.decHeader(data)
  {
    hide Sanitise;
    var hdr := c.decHeader(data).value;
    var base := Sanitise(hdr.name);
    FinalIsApart({}, base);
    var m := c.encMeta(PartialMeta(hdr.sha, hdr.chunkSize, 0, 0));
    ApplyFirst(fs, Create(PartialPath(base)), [Write(MetaPath(base), m)]);
    ApplyOne(fs[PartialPath(base) := []], Write(MetaPath(base), m));
  }

  /** Disk after one stored chunk: the payload appended to the partial, at most the sidecar beside it. */
  lemma StoredChunk(c: Codec, rs: Recv, fs: Files, seqNo: SeqNo, payload: Bytes, env: Env)
    requires Booked(rs, fs)
    ensures var s := StoreChunk(c, rs, seqNo, payload, env);
            var fs' := ApplyAll(fs, s.ops);
            && SameExcept(fs, fs', {PartialPath(rs.base), MetaPath(rs.base)})
            && (env.dataWrite.Written? ==>
                  PartialPath(rs.base) in fs' && fs'[PartialPath(rs.base)] == rs.hashed + payload)
  {
    var p, m := PartialPath(rs.base), MetaPath(rs.base);
    FinalIsApart({}, rs.base);
    var s := StoreChunk(c, rs, seqNo, payload, env);
    if s.ops != [] {
      var rest := s.ops[1..];
      assert s.ops == [s.ops[0]] + rest;
      ApplyFirst(fs, s.ops[0], rest);
      var fs1 := Apply(fs, s.ops[0]);
      if rest != [] {
        assert rest == [rest[0]] && rest[0].Write? && rest[0].path == m;
        ApplyOne(fs1, rest[0]);
      }
    }
  }

  lemma DoneMoves(c: Codec, rs: Recv, fs: Files, env: Env)
    requires Booked(rs, fs)
    ensures var s := HandleDone(c, rs, fs, env);
            var fs' := ApplyAll(fs, s.ops);
            var p, m := PartialPath(rs.base), MetaPath(rs.base);
            && s.done == (c.sha(rs.hashed) == rs.header.value.sha && env.renameOk)
            && (!s.done ==> fs' == fs)
            && (s.done ==>
                  && IsUniquePath(fs.Keys, rs.base, s.rs.final)
                  && s.rs.final !in fs && s.rs.final in fs' && fs'[s.rs.final] == rs.hashed
                  && p !in fs' && (env.removeOk ==> m !in fs')
                  && SameExcept(fs, fs', {p, m, s.rs.final}))
  {
    hide UniqueName;
    var s := HandleDone(c, rs, fs, env);
    var p, m, q := PartialPath(rs.base), MetaPath(rs.base), UniqueName(fs.Keys, rs.base);
    FinalIsApart(fs.Keys, rs.base);
    if s.done {
      var rest := if env.removeOk then [Remove(m)] else [];
      ApplyFirst(fs, Rename(p, q), rest);
      if env.removeOk {
        ApplyOne(Apply(fs, Rename(p, q)), Remove(m));
      }
    }
  }

  /** One frame after the header: the books stay balanced and nothing outside this transfer changes. */
  lemma BooksKept(c: Codec, rs: Recv, fs: Files, frame: Bytes, env: Env)
    requires Booked(rs, fs) && !IsHeader(frame)
    ensures var s := Feed(c, rs, fs, frame, env);
            var fs' := ApplyAll(fs, s.ops);
            && s.rs.header == rs.header && s.rs.base == rs.base
            && (!s.done && s.err.None? ==> Booked(s.rs, fs'))
            && (!s.done ==> SameExcept(fs, fs', {PartialPath(rs.base), MetaPath(rs.base)}))
  {
    hide UniqueName;
    if frame != [] && frame[0] == TAG_CHUNK {
      var data := frame[1..];
      if |data| >= 8 {
        StoredChunk(c, rs, fs, GetU64(data[..8]), data[8..], env);
      }
    } else if frame != [] && frame[0] == TAG_TRANSFER_DONE {
      DoneMoves(c, rs, fs, env);
    }
  }

  /**
   * Bookkeeping over a whole transfer, for any peer and any disk: whatever non-header frames follow a
   * fresh header, up to the first error the partial, the counter and the hash agree and stay within the
   * announced size; a completed transfer has put exactly the hashed bytes, with the announced digest, at
   * a path that was free, and touched no file but its own partial and meta.
   */
  lemma {:induction false} RunKeepsBooks(c: Codec, rs: Recv, fs: Files, ins: seq<Input>)
    requires Booked(rs, fs)
    requires forall i :: 0 <= i < |ins| ==> !IsHeader(ins[i].frame)
    ensures var t := RunDisk(c, rs, fs, ins);
            var own := {PartialPath(rs.base), MetaPath(rs.base)};
            && t.rs.base == rs.base && t.rs.header == rs.header
            && (!t.done && t.err.None? ==> Booked(t.rs, t.fs))
            && (!t.done ==> SameExcept(fs, t.fs, own))
            && (t.done ==>
                  && t.err.None?
                  && t.rs.final !in fs && t.rs.final !in own && t.rs.final in t.fs
                  && c.sha(t.fs[t.rs.final]) == rs.header.value.sha
                  && t.fs[t.rs.final] == t.rs.hashed && |t.rs.hashed| <= rs.header.value.size
                  && PartialPath(rs.base) !in t.fs
                  && SameExcept(fs, t.fs, own + {t.rs.final}))
    decreases |ins|
  {
    hide Feed;
    if ins != [] {
      var s := Feed(c, rs, fs, ins[0].frame, ins[0].env);
      var fs' := ApplyAll(fs, s.ops);
      BooksKept(c, rs, fs, ins[0].frame, ins[0].env);
      if s.done {
        FeedDone(c, rs, fs, ins[0].frame, ins[0].env);
      } else if s.err.None? {
        RunKeepsBooks(c, s.rs, fs', ins[1..]);
      }
    }
  }

  lemma FeedDone(c: Codec, rs: Recv, fs: Files, frame: Bytes, env: Env)
    requires Booked(rs, fs) && !IsHeader(frame) && Feed(c, rs, fs, frame, env).done
    ensures var s := Feed(c, rs, fs, frame, env);
            s == HandleDone(c, rs, fs, env) && s.err.None? && s.rs.hashed == rs.hashed
    ensures var s := Feed(c, rs, fs, frame, env);
            var fs' := ApplyAll(fs, s.ops);
            && c.sha(rs.hashed) == rs.header.value.sha
            && s.rs.final !in fs && s.rs.final !in {PartialPath(rs.base), MetaPath(rs.base)}
            && s.rs.final in fs' && fs'[s.rs.final] == rs.hashed
            && PartialPath(rs.base) !in fs'
            && SameExcept(fs, fs', {PartialPath(rs.base), MetaPath(rs.base), s.rs.final})
  {
    hide UniqueName, HandleDone, HandleChunk, Booked;
    assert Feed(c, rs, fs, frame, env) == HandleDone(c, rs, fs, env) by { ChunkIsNotDone(c, rs, frame, env); }
    DoneShape(c, rs, fs, env);
  }

  lemma ChunkIsNotDone(c: Codec, rs: Recv, frame: Bytes, env: Env)
    ensures frame != [] && frame[0] == TAG_CHUNK ==> !HandleChunk(c, rs, frame[1..], env).done
  {
    hide GetU64, MetaOps;
  }

  lemma DoneShape(c: Codec, rs: Recv, fs: Files, env: Env)
    requires Booked(rs, fs) && HandleDone(c, rs, fs, env).done
    ensures var s := HandleDone(c, rs, fs, env);
            var fs' := ApplyAll(fs, s.ops);
            && s.err.None? && s.rs.hashed == rs.hashed
            && c.sha(rs.hashed) == rs.header.value.sha
            && s.rs.final !in fs && s.rs.final !in {PartialPath(rs.base), MetaPath(rs.base)}
            && s.rs.final in fs' && fs'[s.rs.final] == rs.hashed
            && PartialPath(rs.base) !in fs'
            && SameExcept(fs, fs', {PartialPath(rs.base), MetaPath(rs.base), s.rs.final})
  {
    hide UniqueName, ApplyAll, SameExcept;
    DoneMoves(c, rs, fs, env);
    FinalIsApart(fs.Keys, rs.base);
  }

  // ---------------------------------------------------------------- the two receivers agree

  /** A disk on which nothing fails, and a data channel that carries the ack or not. */
  function Smooth(ackOk: bool): Env {
    Env(true, true, true, true, Written, Written, ackOk, true, true)
  }

  datatype Wire = Wire(frame: Bytes, ackOk: bool)

  function OnDisk(ws: seq<Wire>): (ins: seq<Input>)
    ensures |ins| == |ws|
    ensures forall i :: 0 <= i < |ws| ==> ins[i] == Input(ws[i].frame, Smooth(ws[i].ackOk))
  {
    if ws == [] then [] else [Input(ws[0].frame, Smooth(ws[0].ackOk))] + OnDisk(ws[1..])
  }

  datatype MemTrace = MemTrace(m: Mem, acks: seq<SeqNo>, done: bool, err: Option<ErrClass>)

  function RunMem(c: Codec, m: Mem, ws: seq<Wire>): MemTrace
    decreases |ws|
  {
    if ws == [] then MemTrace(m, [], false, None)
    else
      var s := MemFeed(c, m, ws[0].frame, ws[0].ackOk);
      if s.done || s.err.Some? then MemTrace(s.m, s.acks, s.done, s.err)
      else
        var t := RunMem(c, s.m, ws[1..]);
        t.(acks := s.acks + t.acks)
  }

  /** Before the header both receivers are blank; after it the buffer is the partial file. */
  ghost predicate Related(rs: Recv, fs: Files, m: Mem) {
    && rs.header == m.header
    && m.hashed == m.buf
    && (rs.header.None? ==> rs.handle.NoFile? && m.buf == [])
    && (rs.header.Some? ==>
          && rs.final == rs.base
          && rs.handle == Open(PartialPath(rs.base))
          && PartialPath(rs.base) in fs && fs[PartialPath(rs.base)] == m.buf
          && rs.hashed == m.buf && rs.received == |m.buf|)
  }

  /** What can be observed of a finished or failed transfer. */
  ghost predicate SameOutcome(t: Trace, mt: MemTrace) {
    && t.done == mt.done && t.err == mt.err && t.acks == mt.acks
    && t.rs.header == mt.m.header
    && (t.rs.header.Some? && t.done ==> t.rs.final in t.fs && t.fs[t.rs.final] == mt.m.buf)
    && (t.rs.header.Some? && !t.done ==>
          PartialPath(t.rs.base) in t.fs && t.fs[PartialPath(t.rs.base)] == mt.m.buf)
  }

  function Headers(ws: seq<Wire>): nat {
    if ws == [] then 0 else (if IsHeader(ws[0].frame) then 1 else 0) + Headers(ws[1..])
  }

  lemma HeaderSimulates(c: Codec, rs: Recv, fs: Files, m: Mem, frame: Bytes, ackOk: bool)
    requires Related(rs, fs, m) && IsHeader(frame) && rs.header.None?
    requires forall b: Bytes :: PartialPath(b) !in fs
    ensures var s := Feed(c, rs, fs, frame, Smooth(ackOk));
            var ms := MemFeed(c, m, frame, ackOk);
            && s.done == ms.done == false && s.err == ms.err && s.acks == ms.acks
            && Related(s.rs, ApplyAll(fs, s.ops), ms.m)
  {
    hide Sanitise;
    var data := frame[1..];
    if c.decHeader(data).Some? {
      var hdr := c.decHeader(data).value;
      var base := Sanitise(hdr.name);
      FinalIsApart({}, base);
      var meta := c.encMeta(PartialMeta(hdr.sha, hdr.chunkSize, 0, 0));
      ApplyFirst(fs, Create(PartialPath(base)), [Write(MetaPath(base), meta)]);
      ApplyOne(fs[PartialPath(base) := []], Write(MetaPath(base), meta));
    }
  }

  lemma ChunkSimulates(c: Codec, rs: Recv, fs: Files, m: Mem, data: Bytes, ackOk: bool)
    requires Related(rs, fs, m)
    ensures var s := HandleChunk(c, rs, data, Smooth(ackOk));
            var ms := MemChunk(m, data, ackOk);
            var fs' := ApplyAll(fs, s.ops);
            && s.done == ms.done == false && s.err == ms.err && s.acks == ms.acks
            && s.rs.header == ms.m.header && s.rs.base == rs.base
            && (s.err.None? ==> Related(s.rs, fs', ms.m))
            && (s.rs.header.Some? ==>
                  PartialPath(rs.base) in fs' && fs'[PartialPath(rs.base)] == ms.m.buf)
  {
    if rs.header.Some? && |data| >= 8 {
      var hdr := rs.header.value;
      var payload := data[8..];
      if |m.buf| + |payload| <= hdr.size {
        StoredChunk(c, rs, fs, GetU64(data[..8]), payload, Smooth(ackOk));
      }
    }
  }

  lemma OtherSimulates(c: Codec, rs: Recv, fs: Files, m: Mem, frame: Bytes, ackOk: bool)
    requires Related(rs, fs, m) && !IsHeader(frame)
    ensures var s := Feed(c, rs, fs, frame, Smooth(ackOk));
            var ms := MemFeed(c, m, frame, ackOk);
            var fs' := ApplyAll(fs, s.ops);
            && s.rs.header == rs.header
            && (!s.done && s.err.None? ==> ms.err.None? && !ms.done && s.acks == ms.acks && Related(s.rs, fs', ms.m))
            && (s.done || s.err.Some? ==> SameOutcome(Trace(s.rs, fs', s.acks, s.done, s.err),
                                                      MemTrace(ms.m, ms.acks, ms.done, ms.err)))
  {
    hide UniqueName, Smooth, StoreChunk, GetU64, MoveStep, IsUniquePath;
    if frame != [] && frame[0] == TAG_CHUNK {
      ChunkSimulates(c, rs, fs, m, frame[1..], ackOk);
    } else if frame != [] && frame[0] == TAG_TRANSFER_DONE && rs.header.Some? {
      DoneSimulates(c, rs, fs, m, ackOk);
    }
  }

  lemma DoneSimulates(c: Codec, rs: Recv, fs: Files, m: Mem, ackOk: bool)
    requires Related(rs, fs, m) && rs.header.Some?
    ensures var s := HandleDone(c, rs, fs, Smooth(ackOk));
            var fs' := ApplyAll(fs, s.ops);
            && s.rs.header == rs.header && s.rs.base == rs.base && s.acks == []
            && s.done == (c.sha(m.hashed) == m.header.value.sha)
            && (s.done ==> s.err.None? && s.rs.final in fs' && fs'[s.rs.final] == m.buf)
            && (!s.done ==> s.err == Some(Integrity) && fs' == fs)
  {
    hide UniqueName;
    // The announced size plays no part in completion, so the bookkeeping lemma applies to any size.
    var rs' := rs.(header := Some(rs.header.value.(size := rs.received)));
    DoneMoves(c, rs', fs, Smooth(ackOk));
  }

  /**
   * Refinement: on a directory holding no partial, for every sequence of frames with at most one header,
   * the disk receiver and the in-memory receiver report the same completion and error, send the same acks
   * and hold the same bytes, up to and including the first error or completion.
   */
  lemma {:induction false} DiskRefinesMem(c: Codec, rs: Recv, fs: Files, m: Mem, ws: seq<Wire>)
    requires Related(rs, fs, m)
    requires rs.header.None? ==> Headers(ws) <= 1 && forall b: Bytes :: PartialPath(b) !in fs
    requires rs.header.Some? ==> Headers(ws) == 0
    ensures SameOutcome(RunDisk(c, rs, fs, OnDisk(ws)), RunMem(c, m, ws))
    decreases |ws|
  {
    hide Feed, MemFeed;
    if ws != [] {
      var frame, ackOk := ws[0].frame, ws[0].ackOk;
      assert OnDisk(ws)[1..] == OnDisk(ws[1..]);
      var s := Feed(c, rs, fs, frame, Smooth(ackOk));
      var ms := MemFeed(c, m, frame, ackOk);
      if IsHeader(frame) {
        HeaderSimulates(c, rs, fs, m, frame, ackOk);
        HeaderOutcome(c, rs, fs, frame, ackOk);
        if s.err.None? {
          DiskRefinesMem(c, s.rs, ApplyAll(fs, s.ops), ms.m, ws[1..]);
        }
      } else {
        OtherSimulates(c, rs, fs, m, frame, ackOk);
        if !s.done && s.err.None? {
          OtherKeepsBlank(c, rs, fs, frame, ackOk);
          DiskRefinesMem(c, s.rs, ApplyAll(fs, s.ops), ms.m, ws[1..]);
        }
      }
    }
  }

  lemma HeaderOutcome(c: Codec, rs: Recv, fs: Files, frame: Bytes, ackOk: bool)
    requires IsHeader(frame) && rs.header.None?
    ensures var s := Feed(c, rs, fs, frame, Smooth(ackOk));
            s.rs.header.Some? <==> s.err.None?
    ensures var s := Feed(c, rs, fs, frame, Smooth(ackOk)); s.err.Some? ==> s.ops == []
  {
    hide Sanitise;
  }

  lemma OtherKeepsBlank(c: Codec, rs: Recv, fs: Files, frame: Bytes, ackOk: bool)
    requires !IsHeader(frame)
    ensures rs.header.None? ==> Feed(c, rs, fs, frame, Smooth(ackOk)).ops == []
  {
  }
}
