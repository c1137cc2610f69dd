/**
 The two receivers of a file transfer: ReceiveState keeps a partial file and a meta sidecar on disk,
 ReceiveStateMem keeps a buffer. Both are verified against step functions (Feed, MemFeed); the
 properties of whole transfers are proved about those functions.
 */
module Receiver {
  import opened Prelude
  import opened Frames
  import opened Names

  datatype FileHeader = FileHeader(name: Bytes, size: int, chunkSize: int, sha: Bytes, chunks: int, message: Bytes)
  datatype PartialMeta = PartialMeta(sha: Bytes, chunkSize: int, bytesDone: int, chunksDone: int)

  /** encoding/json and hex(SHA-256), as functions of their inputs. */
  datatype Codec = Codec(
    encHeader: FileHeader -> Bytes,
    decHeader: Bytes -> Option<FileHeader>,
    encMeta: PartialMeta -> Bytes,
    decMeta: Bytes -> Option<PartialMeta>,
    sha: Bytes -> Bytes)

  /** JSON is lossless, and a truncated JSON object does not parse. */
  ghost predicate Lossless(c: Codec) {
    && (forall h :: c.decHeader(c.encHeader(h)) == Some(h))
    && (forall m :: c.decMeta(c.encMeta(m)) == Some(m))
    && (forall m, n: nat :: n < |c.encMeta(m)| ==> c.decMeta(c.encMeta(m)[..n]) == None)
  }

  // ---------------------------------------------------------------- the output directory

  type Files = map<Bytes, Bytes>

  datatype DiskOp =
    | Create(path: Bytes)
    | Append(path: Bytes, data: Bytes)
    | Write(path: Bytes, data: Bytes)
    | Rename(path: Bytes, target: Bytes)
    | Remove(path: Bytes)

  function Apply(fs: Files, op: DiskOp): Files {
    match op
    case Create(p) => fs[p := []]
    case Append(p, d) => if p in fs then fs[p := fs[p] + d] else fs
    case Write(p, d) => fs[p := d]
    case Rename(p, q) => if p in fs then (fs - {p})[q := fs[p]] else fs
    case Remove(p) => fs - {p}
  }

  function ApplyAll(fs: Files, ops: seq<DiskOp>): Files
    decreases |ops|
  {
    if ops == [] then fs else ApplyAll(Apply(fs, ops[0]), ops[1..])
  }

  lemma ApplyOne(fs: Files, op: DiskOp)
    ensures ApplyAll(fs, [op]) == Apply(fs, op)
  {
    assert ApplyAll(Apply(fs, op), [op][1..]) == Apply(fs, op);
  }

  lemma ApplyFirst(fs: Files, op: DiskOp, rest: seq<DiskOp>)
    ensures ApplyAll(fs, [op] + rest) == ApplyAll(Apply(fs, op), rest)
  {
    assert ([op] + rest)[1..] == rest;
  }

  // .gmmff_partial and .gmmff_meta
  const PARTIAL_SUFFIX: Bytes := [DOT, 0x67, 0x6d, 0x6d, 0x66, 0x66, 0x5f, 0x70, 0x61, 0x72, 0x74, 0x69, 0x61, 0x6c]
  const META_SUFFIX: Bytes := [DOT, 0x67, 0x6d, 0x6d, 0x66, 0x66, 0x5f, 0x6d, 0x65, 0x74, 0x61]

  function PartialPath(base: Bytes): Bytes { base + PARTIAL_SUFFIX }

  function MetaPath(base: Bytes): Bytes { base + META_SUFFIX }

  /** How far one write got: all of it, not even opened, or only the first n bytes. */
  datatype WriteOutcome = Written | NotOpened | Torn(n: nat)

  /** What the operating system and the data channel answer while one frame is handled. */
  datatype Env = Env(
    reopenOk: bool, replayOk: bool, resumeOk: bool, createOk: bool,
    dataWrite: WriteOutcome, metaWrite: WriteOutcome,
    ackOk: bool, renameOk: bool, removeOk: bool)

  // ---------------------------------------------------------------- ReceiveState, step by step

  datatype Handle = NoFile | Open(path: Bytes) | Closed(path: Bytes)

  datatype Recv = Recv(
    header: Option<FileHeader>, base: Bytes, final: Bytes, handle: Handle,
    hashed: Bytes, received: int, resumeSeq: SeqNo)

  /** A receiver before its first frame. */
  const BLANK := Recv(None, [], [], NoFile, [], 0, 0)

  datatype ErrClass =
    | BadHeader | CreateFailed | MetaFailed | ResumeFailed | BeforeHeader | ShortFrame | TooMuch
    | WriteFailed | PeerCancelled | Integrity | RenameFailed | SenderError

  datatype Step = Step(
    rs: Recv, ops: seq<DiskOp>, acks: seq<SeqNo>, resumes: seq<SeqNo>, done: bool, err: Option<ErrClass>)

  function Fail(rs: Recv, ops: seq<DiskOp>, e: ErrClass): Step {
    Step(rs, ops, [], [], false, Some(e))
  }

  function MetaOps(c: Codec, path: Bytes, m: PartialMeta, w: WriteOutcome): seq<DiskOp> {
    match w
    case Written => [Write(path, c.encMeta(m))]
    case NotOpened => []
    case Torn(n) => [Write(path, c.encMeta(m)[..Min(n, |c.encMeta(m)|)])]
  }

  function CheckPartial(c: Codec, fs: Files, base: Bytes, hdr: FileHeader): (r: (SeqNo, int))
    ensures r.0 > 0 ==> PartialPath(base) in fs && r.1 == |fs[PartialPath(base)]|
  {
    var p, m := PartialPath(base), MetaPath(base);
    if m !in fs then (0, 0)
    else match c.decMeta(fs[m])
      case None => (0, 0)
      case Some(meta) =>
        if meta.sha != hdr.sha || meta.chunkSize != hdr.chunkSize then (0, 0)
        else if p !in fs || |fs[p]| != meta.bytesDone || meta.chunksDone == 0 then (0, 0)
        else (meta.chunksDone % U64, meta.bytesDone)
  }

  function FreshStart(c: Codec, rs: Recv, hdr: FileHeader, env: Env): Step {
    var p := PartialPath(rs.base);
    if !env.createOk then Fail(rs, [], CreateFailed)
    else
      var ops := [Create(p)] + MetaOps(c, MetaPath(rs.base), PartialMeta(hdr.sha, hdr.chunkSize, 0, 0), env.metaWrite);
      if !env.metaWrite.Written? then Fail(rs, ops, MetaFailed)
      else Step(rs.(handle := Open(p), hashed := [], received := 0, resumeSeq := 0), ops, [], [], false, None)
  }

  function ResumeStep(rs: Recv, fs: Files, k: SeqNo, already: int, env: Env): Step
    requires PartialPath(rs.base) in fs && 0 <= already <= |fs[PartialPath(rs.base)]|
  {
    var p := PartialPath(rs.base);
    var rs' := rs.(hashed := fs[p][..already], received := already, resumeSeq := k);
    if env.resumeOk then Step(rs'.(handle := Open(p)), [], [], [k], false, None)
    else Fail(rs'.(handle := Closed(p)), [], ResumeFailed)
  }

  function HandleHeader(c: Codec, rs: Recv, fs: Files, data: Bytes, env: Env): Step {
    match c.decHeader(data)
    case None => Fail(rs, [], BadHeader)
    case Some(hdr) =>
      var base := Sanitise(hdr.name);
      var rs1 := rs.(header := Some(hdr), base := base, final := base);
      var (k, already) := CheckPartial(c, fs, base, hdr);
      if k > 0 && env.reopenOk && env.replayOk then
        ResumeStep(rs1, fs, k, already, env)
      else FreshStart(c, rs1, hdr, env)
  }

  function HandleChunk(c: Codec, rs: Recv, data: Bytes, env: Env): Step {
    if rs.header.None? || rs.handle.NoFile? then Fail(rs, [], BeforeHeader)
    else if |data| < 8 then Fail(rs, [], ShortFrame)
    else
      var hdr := rs.header.value;
      var seqNo, payload := GetU64(data[..8]), data[8..];
      if rs.received + |payload| > hdr.size then Fail(rs.(handle := NoFile), [], TooMuch)
      else StoreChunk(c, rs, seqNo, payload, env)
  }

  /** Append the payload, advance hash and counter, rewrite the sidecar, acknowledge. */
  function StoreChunk(c: Codec, rs: Recv, seqNo: SeqNo, payload: Bytes, env: Env): Step
    requires rs.header.Some? && !rs.handle.NoFile?
  {
    if rs.handle.Closed? || env.dataWrite.NotOpened? then Fail(rs, [], WriteFailed)
    else if env.dataWrite.Torn? then
      Fail(rs, [Append(rs.handle.path, payload[..Min(env.dataWrite.n, |payload|)])], WriteFailed)
    else
      var hdr := rs.header.value;
      var rs' := rs.(hashed := rs.hashed + payload, received := rs.received + |payload|);
      var meta := PartialMeta(hdr.sha, hdr.chunkSize, rs'.received, Wrap64(Wrap64(seqNo) + 1));
      var ops := [Append(rs.handle.path, payload)] + MetaOps(c, MetaPath(rs.base), meta, env.metaWrite);
      if env.ackOk then Step(rs', ops, [seqNo], [], false, None) else Fail(rs', ops, PeerCancelled)
  }

  function HandleDone(c: Codec, rs: Recv, fs: Files, env: Env): Step {
    if rs.header.None? || rs.handle.NoFile? then Fail(rs, [], BeforeHeader)
    else
      var rs1 := rs.(handle := Closed(rs.handle.path));
      if c.sha(rs.hashed) != rs.header.value.sha then Fail(rs1, [], Integrity)
      else MoveStep(rs1, fs, env)
  }

  function MoveStep(rs: Recv, fs: Files, env: Env): Step {
    var p := PartialPath(rs.base);
    var rs' := rs.(final := UniqueName(fs.Keys, rs.final));
    if p !in fs || !env.renameOk then Fail(rs', [], RenameFailed)
    else
      var ops := [Rename(p, rs'.final)] + if env.removeOk then [Remove(MetaPath(rs.base))] else [];
      Step(rs', ops, [], [], true, None)
  }

  function Feed(c: Codec, rs: Recv, fs: Files, frame: Bytes, env: Env): Step {
    if frame == [] then Step(rs, [], [], [], false, None)
    else if frame[0] == TAG_FILE_HEADER then HandleHeader(c, rs, fs, frame[1..], env)
    else if frame[0] == TAG_CHUNK then HandleChunk(c, rs, frame[1..], env)
    else if frame[0] == TAG_TRANSFER_DONE then HandleDone(c, rs, fs, env)
    else if frame[0] == TAG_TRANSFER_ERROR then Fail(rs, [], SenderError)
    else if frame[0] == TAG_CANCELLED then Fail(rs, [], PeerCancelled)
    else Step(rs, [], [], [], false, None)
  }

  // ---------------------------------------------------------------- the receivers as objects

  class Disk {
    var files: Files
    ghost var log: seq<DiskOp>

    constructor (fs: Files)
      ensures files == fs && log == []
    {
      files := fs;
      log := [];
    }

    method Do(op: DiskOp)
      modifies this
      ensures files == Apply(old(files), op) && log == old(log) + [op]
    {
      files := Apply(files, op);
      log := log + [op];
    }
  }

  class ReceiveState {
    const codec: Codec
    const disk: Disk
    var header: Option<FileHeader>
    var base: Bytes
    var final: Bytes
    var handle: Handle
    var hashed: Bytes
    var received: int
    var resumeSeq: SeqNo
    var acks: seq<SeqNo>
    var resumes: seq<SeqNo>

    ghost function Abs(): Recv
      reads this
    {
      Recv(header, base, final, handle, hashed, received, resumeSeq)
    }

    constructor (codec: Codec, disk: Disk)
      ensures this.codec == codec && this.disk == disk
      ensures Abs() == Recv(None, [], [], NoFile, [], 0, 0) && acks == [] && resumes == []
    {
      this.codec, this.disk := codec, disk;
      header, base, final, handle, hashed, received, resumeSeq := None, [], [], NoFile, [], 0, 0;
      acks, resumes := [], [];
    }

    /** The state after one call is exactly what step s says, on disk and towards the sender. */
    twostate predicate Did(s: Step, done: bool, new err: Option<ErrClass>)
      reads this, disk
    {
      && Abs() == s.rs
      && disk.files == ApplyAll(old(disk.files), s.ops)
      && disk.log == old(disk.log) + s.ops
      && acks == old(acks) + s.acks
      && resumes == old(resumes) + s.resumes
      && done == s.done
      && err == s.err
    }

    method WriteMeta(meta: PartialMeta, w: WriteOutcome) returns (ok: bool)
      modifies disk
      ensures ok == w.Written?
      ensures disk.files == ApplyAll(old(disk.files), MetaOps(codec, MetaPath(base), meta, w))
      ensures disk.log == old(disk.log) + MetaOps(codec, MetaPath(base), meta, w)
      ensures unchanged(this)
    {
      var raw := codec.encMeta(meta);
      match w {
        case Written =>
          ApplyOne(disk.files, Write(MetaPath(base), raw));
          disk.Do(Write(MetaPath(base), raw));
        case NotOpened =>
        case Torn(n) =>
          ApplyOne(disk.files, Write(MetaPath(base), raw[..Min(n, |raw|)]));
          disk.Do(Write(MetaPath(base), raw[..Min(n, |raw|)]));
      }
      ok := w.Written?;
    }

    method DoHandleHeader(data: Bytes, env: Env) returns (done: bool, err: Option<ErrClass>)
      modifies this, disk
      ensures Did(HandleHeader(codec, old(Abs()), old(disk.files), data, env), done, err)
    {
      hide Sanitise, ResumeStep, FreshStart;
      var decoded := codec.decHeader(data);
      if decoded.None? {
        return false, Some(BadHeader);
      }
      var hdr := decoded.value;
      header := Some(hdr);
      base := SanitiseName(hdr.name);
      final := base;
      var (k, already) := CheckPartial(codec, disk.files, base, hdr);
      if k > 0 && env.reopenOk && env.replayOk {
        done, err := DoResume(k, already, env);
        return;
      }
      done, err := DoFreshStart(hdr, env);
    }

    /** Reopen the partial, replay its hash and tell the sender where to continue. */
    method DoResume(k: SeqNo, already: int, env: Env) returns (done: bool, err: Option<ErrClass>)
      requires PartialPath(base) in disk.files && 0 <= already <= |disk.files[PartialPath(base)]|
      modifies this
      ensures Did(ResumeStep(old(Abs()), old(disk.files), k, already, env), done, err)
    {
      var p := PartialPath(base);
      hashed, received, resumeSeq := disk.files[p][..already], already, k;
      if !env.resumeOk {
        handle := Closed(p);
        return false, Some(ResumeFailed);
      }
      handle := Open(p);
      resumes := resumes + [k];
      return false, None;
    }

    method DoFreshStart(hdr: FileHeader, env: Env) returns (done: bool, err: Option<ErrClass>)
      modifies this, disk
      ensures Did(FreshStart(codec, old(Abs()), hdr, env), done, err)
    {
      if !env.createOk {
        return false, Some(CreateFailed);
      }
      var meta := PartialMeta(hdr.sha, hdr.chunkSize, 0, 0);
      ApplyFirst(disk.files, Create(PartialPath(base)), MetaOps(codec, MetaPath(base), meta, env.metaWrite));
      disk.Do(Create(PartialPath(base)));
      var ok := WriteMeta(meta, env.metaWrite);
      if !ok {
        return false, Some(MetaFailed);
      }
      handle, hashed, received, resumeSeq := Open(PartialPath(base)), [], 0, 0;
      return false, None;
    }

    method DoHandleChunk(data: Bytes, env: Env) returns (done: bool, err: Option<ErrClass>)
      modifies this, disk
      ensures Did(HandleChunk(codec, old(Abs()), data, env), done, err)
    {
      if header.None? || handle.NoFile? {
        return false, Some(BeforeHeader);
      }
      if |data| < 8 {
        return false, Some(ShortFrame);
      }
      var seqNo, payload := GetU64(data[..8]), data[8..];
      if received + |payload| > header.value.size {
        handle := NoFile;
        return false, Some(TooMuch);
      }
      done, err := DoStoreChunk(seqNo, payload, env);
    }

    /** The payload at the end of the partial, then the sidecar, whose failure is not reported. */
    method Persist(path: Bytes, payload: Bytes, meta: PartialMeta, w: WriteOutcome)
      modifies disk
      ensures disk.files == ApplyAll(old(disk.files), [Append(path, payload)] + MetaOps(codec, MetaPath(base), meta, w))
      ensures disk.log == old(disk.log) + ([Append(path, payload)] + MetaOps(codec, MetaPath(base), meta, w))
      ensures unchanged(this)
    {
      hide MetaOps, Apply, ApplyAll;
      ApplyFirst(disk.files, Append(path, payload), MetaOps(codec, MetaPath(base), meta, w));
      disk.Do(Append(path, payload));
      var _ := WriteMeta(meta, w);
    }

    method DoStoreChunk(seqNo: SeqNo, payload: Bytes, env: Env) returns (done: bool, err: Option<ErrClass>)
      requires header.Some? && !handle.NoFile?
      modifies this, disk
      ensures Did(StoreChunk(codec, old(Abs()), seqNo, payload, env), done, err)
    {
      hide MetaOps, Wrap64;
      if handle.Closed? || env.dataWrite.NotOpened? {
        return false, Some(WriteFailed);
      }
      if env.dataWrite.Torn? {
        ApplyOne(disk.files, Append(handle.path, payload[..Min(env.dataWrite.n, |payload|)]));
        disk.Do(Append(handle.path, payload[..Min(env.dataWrite.n, |payload|)]));
        return false, Some(WriteFailed);
      }
      var meta :=
        PartialMeta(header.value.sha, header.value.chunkSize, received + |payload|, Wrap64(Wrap64(seqNo) + 1));
      Persist(handle.path, payload, meta, env.metaWrite);
      hashed := hashed + payload;
      received := received + |payload|;
      if !env.ackOk {
        return false, Some(PeerCancelled);
      }
      acks := acks + [seqNo];
      return false, None;
    }

    method DoHandleDone(env: Env) returns (done: bool, err: Option<ErrClass>)
      modifies this, disk
      ensures Did(HandleDone(codec, old(Abs()), old(disk.files), env), done, err)
    {
      hide MoveStep;
      if header.None? || handle.NoFile? {
        return false, Some(BeforeHeader);
      }
      handle := Closed(handle.path);
      if codec.sha(hashed) != header.value.sha {
        return false, Some(Integrity);
      }
      done, err := MoveIntoPlace(env);
    }

    /** Rename to a free name, then drop the sidecar. */
    method MoveIntoPlace(env: Env) returns (done: bool, err: Option<ErrClass>)
      modifies this, disk
      ensures Did(MoveStep(old(Abs()), old(disk.files), env), done, err)
    {
      hide UniqueName;
      final := UniquePath(disk.files.Keys, final);
      if PartialPath(base) !in disk.files || !env.renameOk {
        return false, Some(RenameFailed);
      }
      ApplyFirst(disk.files, Rename(PartialPath(base), final), if env.removeOk then [Remove(MetaPath(base))] else []);
      disk.Do(Rename(PartialPath(base), final));
      if env.removeOk {
        ApplyOne(disk.files, Remove(MetaPath(base)));
        disk.Do(Remove(MetaPath(base)));
      }
      return true, None;
    }

    method FeedFrame(frame: Bytes, env: Env) returns (done: bool, err: Option<ErrClass>)
      modifies this, disk
      ensures Did(Feed(codec, old(Abs()), old(disk.files), frame, env), done, err)
    {
      if frame == [] {
        return false, None;
      } else if frame[0] == TAG_FILE_HEADER {
        done, err := DoHandleHeader(frame[1..], env);
      } else if frame[0] == TAG_CHUNK {
        done, err := DoHandleChunk(frame[1..], env);
      } else if frame[0] == TAG_TRANSFER_DONE {
        done, err := DoHandleDone(env);
      } else if frame[0] == TAG_TRANSFER_ERROR {
        return false, Some(SenderError);
      } else if frame[0] == TAG_CANCELLED {
        return false, Some(PeerCancelled);
      } else {
        return false, None;
      }
    }
  }

  // ---------------------------------------------------------------- ReceiveStateMem

  datatype Mem = Mem(header: Option<FileHeader>, buf: Bytes, hashed: Bytes, done: bool, fileName: Bytes)
  datatype MemStep = MemStep(m: Mem, acks: seq<SeqNo>, done: bool, err: Option<ErrClass>)

  function MemFeed(c: Codec, m: Mem, frame: Bytes, ackOk: bool): MemStep {
    if frame == [] then MemStep(m, [], false, None)
    else if frame[0] == TAG_FILE_HEADER then
      (match c.decHeader(frame[1..])
       case None => MemStep(m, [], false, Some(BadHeader))
       case Some(hdr) =>
         MemStep(m.(header := Some(hdr), fileName := Sanitise(hdr.name), hashed := [], buf := []), [], false, None))
    else if frame[0] == TAG_CHUNK then MemChunk(m, frame[1..], ackOk)
    else if frame[0] == TAG_TRANSFER_DONE then
      if m.header.None? then MemStep(m, [], false, Some(BeforeHeader))
      else if c.sha(m.hashed) != m.header.value.sha then MemStep(m, [], false, Some(Integrity))
      else MemStep(m.(done := true), [], true, None)
    else if frame[0] == TAG_TRANSFER_ERROR then MemStep(m, [], false, Some(SenderError))
    else if frame[0] == TAG_CANCELLED then MemStep(m, [], false, Some(PeerCancelled))
    else MemStep(m, [], false, None)
  }

  function MemChunk(m: Mem, data: Bytes, ackOk: bool): MemStep {
    if m.header.None? then MemStep(m, [], false, Some(BeforeHeader))
    else if |data| < 8 then MemStep(m, [], false, Some(ShortFrame))
    else
      var seqNo, payload := GetU64(data[..8]), data[8..];
      if |m.buf| + |payload| > m.header.value.size then MemStep(m, [], false, Some(TooMuch))
      else
        var m' := m.(buf := m.buf + payload, hashed := m.hashed + payload);
        if ackOk then MemStep(m', [seqNo], false, None) else MemStep(m', [], false, Some(PeerCancelled))
  }

  class ReceiveStateMem {
    const codec: Codec
    var header: Option<FileHeader>
    var buf: Bytes
    var hashed: Bytes
    var completed: bool
    var fileName: Bytes
    var acks: seq<SeqNo>

    ghost function Abs(): Mem
      reads this
    {
      Mem(header, buf, hashed, completed, fileName)
    }

    constructor (codec: Codec)
      ensures this.codec == codec && Abs() == Mem(None, [], [], false, []) && acks == []
    {
      this.codec := codec;
      header, buf, hashed, completed, fileName, acks := None, [], [], false, [], [];
    }

    method DoChunk(data: Bytes, ackOk: bool) returns (done: bool, err: Option<ErrClass>)
      modifies this
      ensures var s := MemChunk(old(Abs()), data, ackOk);
              Abs() == s.m && acks == old(acks) + s.acks && done == s.done && err == s.err
    {
      hide GetU64;
      if header.None? {
        return false, Some(BeforeHeader);
      }
      if |data| < 8 {
        return false, Some(ShortFrame);
      }
      var seqNo, payload := GetU64(data[..8]), data[8..];
      if |buf| + |payload| > header.value.size {
        return false, Some(TooMuch);
      }
      buf := buf + payload;
      hashed := hashed + payload;
      if !ackOk {
        return false, Some(PeerCancelled);
      }
      acks := acks + [seqNo];
      return false, None;
    }

    method FeedFrame(frame: Bytes, ackOk: bool) returns (done: bool, err: Option<ErrClass>)
      modifies this
      ensures var s := MemFeed(codec, old(Abs()), frame, ackOk);
              Abs() == s.m && acks == old(acks) + s.acks && done == s.done && err == s.err
    {
      hide MemChunk, Sanitise;
      done, err := false, None;
      if frame == [] {
      } else if frame[0] == TAG_FILE_HEADER {
        var decoded := codec.decHeader(frame[1..]);
        if decoded.None? {
          return false, Some(BadHeader);
        }
        header := decoded;
        fileName := SanitiseName(decoded.value.name);
        hashed, buf := [], [];
      } else if frame[0] == TAG_CHUNK {
        done, err := DoChunk(frame[1..], ackOk);
      } else if frame[0] == TAG_TRANSFER_DONE {
        if header.None? {
          return false, Some(BeforeHeader);
        }
        if codec.sha(hashed) != header.value.sha {
          return false, Some(Integrity);
        }
        completed := true;
        return true, None;
      } else if frame[0] == TAG_TRANSFER_ERROR {
        return false, Some(SenderError);
      } else if frame[0] == TAG_CANCELLED {
        return false, Some(PeerCancelled);
      }
    }
  }
}
