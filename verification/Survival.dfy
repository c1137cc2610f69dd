/** What later transfers do to the files that earlier ones have completed. */
module Survival {
  import opened Prelude
  import opened Frames
  import opened Names
  import opened Receiver
  import opened ReceiverProofs

  /** q is neither the partial nor the sidecar of a transfer under one of these names. */
  predicate Apart(q: Bytes, names: set<Bytes>) {
    forall n :: n in names ==> q != PartialPath(Sanitise(n)) && q != MetaPath(Sanitise(n))
  }

  /** A header in this frame announces one of these names. */
  predicate AnnouncesOnly(c: Codec, frame: Bytes, names: set<Bytes>) {
    IsHeader(frame) && c.decHeader(frame[1..]).Some? ==> c.decHeader(frame[1..]).value.name in names
  }

  /** The receiver works on files of these names only. */
  ghost predicate Within(rs: Recv, names: set<Bytes>) {
    && (rs.header.Some? ==> exists n :: n in names && rs.base == Sanitise(n))
    && (rs.handle.NoFile? || exists n :: n in names && rs.handle.path == PartialPath(Sanitise(n)))
  }

  predicate Spares(op: DiskOp, q: Bytes) {
    op.path != q && (op.Rename? ==> op.target != q)
  }

  predicate AllSpare(ops: seq<DiskOp>, q: Bytes) {
    forall i :: 0 <= i < |ops| ==> Spares(ops[i], q)
  }

  predicate Kept(fs: Files, fs': Files, q: Bytes) {
    q in fs ==> q in fs' && fs'[q] == fs[q]
  }

  lemma {:induction false} SparedIsKept(fs: Files, ops: seq<DiskOp>, q: Bytes)
    requires AllSpare(ops, q)
    ensures Kept(fs, ApplyAll(fs, ops), q)
    decreases |ops|
  {
    if ops != [] {
      SparedIsKept(Apply(fs, ops[0]), ops[1..], q);
    }
  }

  lemma HeaderSpares(c: Codec, rs: Recv, fs: Files, frame: Bytes, env: Env, names: set<Bytes>, q: Bytes)
    requires IsHeader(frame) && Within(rs, names) && AnnouncesOnly(c, frame, names) && Apart(q, names)
    ensures var s := Feed(c, rs, fs, frame, env); AllSpare(s.ops, q) && Within(s.rs, names)
  {
    hide Sanitise;
  }

  lemma ChunkSpares(c: Codec, rs: Recv, data: Bytes, env: Env, names: set<Bytes>, q: Bytes)
    requires Within(rs, names) && Apart(q, names)
    ensures var s := HandleChunk(c, rs, data, env); AllSpare(s.ops, q) && Within(s.rs, names)
  {
    hide Sanitise, GetU64;
  }

  lemma DoneSpares(c: Codec, rs: Recv, fs: Files, env: Env, names: set<Bytes>, q: Bytes)
    requires Within(rs, names) && Apart(q, names) && q in fs
    ensures var s := HandleDone(c, rs, fs, env); AllSpare(s.ops, q) && Within(s.rs, names)
  {
    hide Sanitise, UniqueName;
    FreeNameIsFree(fs.Keys, rs.final);
  }

  lemma FreeNameIsFree(existing: set<Bytes>, name: Bytes)
    ensures UniqueName(existing, name) !in existing
  {
  }

  /** One frame touches nothing but the partial and sidecar of a name announced, and a path that was free. */
  lemma FrameSpares(c: Codec, rs: Recv, fs: Files, frame: Bytes, env: Env, names: set<Bytes>, q: Bytes)
    requires Within(rs, names) && AnnouncesOnly(c, frame, names) && Apart(q, names) && q in fs
    ensures var s := Feed(c, rs, fs, frame, env); AllSpare(s.ops, q) && Within(s.rs, names)
  {
    hide HandleHeader, HandleChunk, HandleDone, Within, Apart, Sanitise;
    if IsHeader(frame) {
      HeaderSpares(c, rs, fs, frame, env, names, q);
    } else if frame != [] {
      ChunkSpares(c, rs, frame[1..], env, names, q);
      DoneSpares(c, rs, fs, env, names, q);
    }
  }

  predicate AllAnnounceOnly(c: Codec, ins: seq<Input>, names: set<Bytes>) {
    forall i :: 0 <= i < |ins| ==> AnnouncesOnly(c, ins[i].frame, names)
  }

  lemma {:induction false} RunSpares(c: Codec, rs: Recv, fs: Files, ins: seq<Input>, names: set<Bytes>, q: Bytes)
    requires Within(rs, names) && AllAnnounceOnly(c, ins, names) && Apart(q, names) && q in fs
    ensures Kept(fs, RunDisk(c, rs, fs, ins).fs, q)
    decreases |ins|
  {
    hide Feed, Within, AnnouncesOnly, Apart;
    if ins != [] {
      var s := Feed(c, rs, fs, ins[0].frame, ins[0].env);
      FrameSpares(c, rs, fs, ins[0].frame, ins[0].env, names, q);
      SparedIsKept(fs, s.ops, q);
      if !s.done && s.err.None? {
        RunSpares(c, s.rs, ApplyAll(fs, s.ops), ins[1..], names, q);
      }
    }
  }

  /** Transfers one after the other into the same directory, each with a new receiver. */
  function RunAll(c: Codec, fs: Files, runs: seq<seq<Input>>): Files
    decreases |runs|
  {
    if runs == [] then fs else RunAll(c, RunDisk(c, BLANK, fs, runs[0]).fs, runs[1..])
  }

  predicate RunsAnnounceOnly(c: Codec, runs: seq<seq<Input>>, names: set<Bytes>) {
    forall i :: 0 <= i < |runs| ==> AllAnnounceOnly(c, runs[i], names)
  }

  lemma {:induction false} AllRunsSpare(c: Codec, fs: Files, runs: seq<seq<Input>>, names: set<Bytes>, q: Bytes)
    requires RunsAnnounceOnly(c, runs, names) && Apart(q, names) && q in fs
    ensures Kept(fs, RunAll(c, fs, runs), q)
    decreases |runs|
  {
    hide Apart, AllAnnounceOnly, RunDisk;
    if runs != [] {
      RunSpares(c, BLANK, fs, runs[0], names, q);
      AllRunsSpare(c, RunDisk(c, BLANK, fs, runs[0]).fs, runs[1..], names, q);
    }
  }

  // ---------------------------------------------------------------- and the other files are lost

  /** A header that starts over whatever is on disk. */
  function StartOver(c: Codec, name: Bytes, chunkSize: int, meta: WriteOutcome): Input {
    Input([TAG_FILE_HEADER] + c.encHeader(FileHeader(name, 1, chunkSize, [], 1, [])),
          Env(false, false, true, true, Written, meta, true, true, true))
  }

  /** The disk after it. */
  function StartedOver(c: Codec, fs: Files, name: Bytes, chunkSize: int, meta: WriteOutcome): Files {
    var base := Sanitise(name);
    ApplyAll(fs[PartialPath(base) := []], MetaOps(c, MetaPath(base), PartialMeta([], chunkSize, 0, 0), meta))
  }

  lemma StartsOver(c: Codec, fs: Files, name: Bytes, chunkSize: int, meta: WriteOutcome)
    requires Lossless(c)
    ensures var i := StartOver(c, name, chunkSize, meta);
            var s := Feed(c, BLANK, fs, i.frame, i.env);
            && ApplyAll(fs, s.ops) == StartedOver(c, fs, name, chunkSize, meta)
            && !s.done && s.err == (if meta.Written? then None else Some(MetaFailed))
            && s.rs.base == Sanitise(name) && s.rs.header.Some? && s.rs.header.value.size == 1
            && (meta.Written? ==> s.rs.handle == Open(PartialPath(s.rs.base)) && s.rs.received == 0)
            && AnnouncesOnly(c, i.frame, {name})
  {
    hide Sanitise, CheckPartial, ApplyAll, MetaOps;
    var hdr := FileHeader(name, 1, chunkSize, [], 1, []);
    var i := StartOver(c, name, chunkSize, meta);
    assert i.frame[1..] == c.encHeader(hdr);
    var base := Sanitise(name);
    ApplyFirst(fs, Create(PartialPath(base)), MetaOps(c, MetaPath(base), PartialMeta([], chunkSize, 0, 0), meta));
  }

  /** A run that changes q when it is the partial or sidecar of the name: one or two frames. */
  function Clobber(c: Codec, fs: Files, name: Bytes, q: Bytes): seq<Input>
    requires q in fs
  {
    var first := if fs[q] != [] then StartOver(c, name, 1, Torn(0))
                 else if c.encMeta(PartialMeta([], 1, 0, 0)) != [] then StartOver(c, name, 1, Written)
                 else StartOver(c, name, 2, Written);
    [first] + if q == PartialPath(Sanitise(name)) && fs[q] == [] then [Input(BuildChunk(0, [0]), Smooth(true))] else []
  }

  lemma OneFrame(c: Codec, fs: Files, i: Input)
    ensures RunDisk(c, BLANK, fs, [i]).fs == ApplyAll(fs, Feed(c, BLANK, fs, i.frame, i.env).ops)
  {
    hide Feed, ApplyAll;
  }

  lemma ClobbersSidecar(c: Codec, fs: Files, name: Bytes)
    requires Lossless(c) && MetaPath(Sanitise(name)) in fs
    ensures var q := MetaPath(Sanitise(name)); !Kept(fs, RunDisk(c, BLANK, fs, Clobber(c, fs, name, q)).fs, q)
  {
    hide Sanitise, Feed, RunDisk;
    var q := MetaPath(Sanitise(name));
    FinalIsApart({}, Sanitise(name));
    var ins := Clobber(c, fs, name, q);
    assert ins == [ins[0]];
    OneFrame(c, fs, ins[0]);
    var m1, m2 := PartialMeta([], 1, 0, 0), PartialMeta([], 2, 0, 0);
    assert c.decMeta(c.encMeta(m1)) == Some(m1) && c.decMeta(c.encMeta(m2)) == Some(m2);
    var fs1 := fs[PartialPath(Sanitise(name)) := []];
    StartsOver(c, fs, name, 1, Torn(0));
    StartsOver(c, fs, name, 1, Written);
    StartsOver(c, fs, name, 2, Written);
    ApplyOne(fs1, Write(q, c.encMeta(m1)[..0]));
    ApplyOne(fs1, Write(q, c.encMeta(m1)));
    ApplyOne(fs1, Write(q, c.encMeta(m2)));
  }

  lemma ClobbersPartial(c: Codec, fs: Files, name: Bytes)
    requires Lossless(c) && PartialPath(Sanitise(name)) in fs
    ensures var q := PartialPath(Sanitise(name)); !Kept(fs, RunDisk(c, BLANK, fs, Clobber(c, fs, name, q)).fs, q)
  {
    hide Sanitise, Feed;
    var base := Sanitise(name);
    var q := PartialPath(base);
    FinalIsApart({}, base);
    var ins := Clobber(c, fs, name, q);
    if fs[q] != [] {
      assert ins == [ins[0]];
      OneFrame(c, fs, ins[0]);
      StartsOver(c, fs, name, 1, Torn(0));
      ApplyOne(fs[q := []], Write(MetaPath(base), c.encMeta(PartialMeta([], 1, 0, 0))[..0]));
    } else {
      var cs := if c.encMeta(PartialMeta([], 1, 0, 0)) != [] then 1 else 2;
      StartsOver(c, fs, name, cs, Written);
      FirstByteStored(c, fs, name, cs);
    }
  }

  lemma FirstByteStored(c: Codec, fs: Files, name: Bytes, chunkSize: int)
    requires Lossless(c)
    ensures var q := PartialPath(Sanitise(name));
            var t := RunDisk(c, BLANK, fs, [StartOver(c, name, chunkSize, Written), Input(BuildChunk(0, [0]), Smooth(true))]);
            q in t.fs && t.fs[q] == [0]
  {
    hide Sanitise, Feed;
    var base := Sanitise(name);
    var i, j := StartOver(c, name, chunkSize, Written), Input(BuildChunk(0, [0]), Smooth(true));
    StartsOver(c, fs, name, chunkSize, Written);
    var s := Feed(c, BLANK, fs, i.frame, i.env);
    var fs' := ApplyAll(fs, s.ops);
    FinalIsApart({}, base);
    ApplyOne(fs[PartialPath(base) := []], Write(MetaPath(base), c.encMeta(PartialMeta([], chunkSize, 0, 0))));
    assert fs'[PartialPath(base)] == [];
    StoresByte(c, s.rs, fs');
    assert [i, j][1..] == [j];
    assert RunDisk(c, s.rs, fs', [j]).fs == ApplyAll(fs', Feed(c, s.rs, fs', j.frame, j.env).ops);
  }

  lemma StoresByte(c: Codec, rs: Recv, fs: Files)
    requires rs.header.Some? && rs.header.value.size == 1 && rs.received == 0
    requires rs.handle == Open(PartialPath(rs.base)) && PartialPath(rs.base) in fs && fs[PartialPath(rs.base)] == []
    ensures var fs' := ApplyAll(fs, Feed(c, rs, fs, BuildChunk(0, [0]), Smooth(true)).ops);
            PartialPath(rs.base) in fs' && fs'[PartialPath(rs.base)] == [0]
  {
    hide GetU64;
    ChunkBody(0, [0]);
    FinalIsApart({}, rs.base);
    var s := Feed(c, rs, fs, BuildChunk(0, [0]), Smooth(true));
    var p := PartialPath(rs.base);
    ApplyFirst(fs, Append(p, [0]), s.ops[1..]);
    ApplyOne(Apply(fs, Append(p, [0])), s.ops[1]);
    assert s.ops == [Append(p, [0])] + s.ops[1..] && s.ops[1..] == [s.ops[1]];
  }

  lemma ClobberAnnounces(c: Codec, fs: Files, name: Bytes, q: Bytes)
    requires Lossless(c) && q in fs
    ensures AllAnnounceOnly(c, Clobber(c, fs, name, q), {name})
  {
    hide Sanitise, Feed;
    StartsOver(c, fs, name, 1, Torn(0));
    StartsOver(c, fs, name, 1, Written);
    StartsOver(c, fs, name, 2, Written);
  }

  /**
   * A file survives all later transfers under these names, whatever their peers send and whatever the
   * disk answers, if and only if it is none of their partials or sidecars.
   */
  lemma SurvivesIff(c: Codec, fs: Files, names: set<Bytes>, q: Bytes)
    requires Lossless(c) && q in fs
    ensures (forall runs :: RunsAnnounceOnly(c, runs, names) ==> Kept(fs, RunAll(c, fs, runs), q)) <==> Apart(q, names)
  {
    hide Apart, RunDisk, Clobber, AllAnnounceOnly, Sanitise;
    if Apart(q, names) {
      forall runs | RunsAnnounceOnly(c, runs, names)
        ensures Kept(fs, RunAll(c, fs, runs), q)
      {
        AllRunsSpare(c, fs, runs, names, q);
      }
    } else {
      var n := Culprit(q, names);
      var ins := Clobber(c, fs, n, q);
      if q == PartialPath(Sanitise(n)) {
        ClobbersPartial(c, fs, n);
      } else {
        ClobbersSidecar(c, fs, n);
      }
      ClobberAnnounces(c, fs, n, q);
      AnnouncesMore(c, ins, n, names);
      var runs := [ins];
      assert RunAll(c, RunDisk(c, BLANK, fs, ins).fs, runs[1..]) == RunDisk(c, BLANK, fs, ins).fs;
      assert RunsAnnounceOnly(c, runs, names) && !Kept(fs, RunAll(c, fs, runs), q);
    }
  }

  lemma Culprit(q: Bytes, names: set<Bytes>) returns (n: Bytes)
    requires !Apart(q, names)
    ensures n in names && (q == PartialPath(Sanitise(n)) || q == MetaPath(Sanitise(n)))
  {
    hide Sanitise;
    n :| n in names && !(q != PartialPath(Sanitise(n)) && q != MetaPath(Sanitise(n)));
  }

  lemma AnnouncesMore(c: Codec, ins: seq<Input>, n: Bytes, names: set<Bytes>)
    requires AllAnnounceOnly(c, ins, {n}) && n in names
    ensures AllAnnounceOnly(c, ins, names)
  {
  }

  // ---------------------------------------------------------------- such names pass the sanitiser

  /** Whatever name a file can be completed under, that name with the suffix of a partial is possible too. */
  lemma PartialNameIsAllowed(name: Bytes)
    ensures Sanitise(PartialPath(Sanitise(name))) == PartialPath(Sanitise(name))
  {
    hide Sanitise, SafeName;
    var b := Sanitise(name);
    SanitiseIsSafe(name);
    SuffixedIsSafe(b);
    SanitiseFixpoints(PartialPath(b));
  }

  lemma SuffixedIsSafe(b: Bytes)
    requires SafeName(b)
    ensures SafeName(b + PARTIAL_SUFFIX) && TrailingSpace(b + PARTIAL_SUFFIX) == 0
  {
    hide WindowsReserved, LeadingSpace, TrailingSpace;
    var r := b + PARTIAL_SUFFIX;
    assert forall i :: 0 <= i < |b| ==> r[i] == b[i];
    assert forall i :: 0 <= i < 14 ==> r[|b| + i] == PARTIAL_SUFFIX[i];
    assert forall i :: 0 < i < 14 ==> PARTIAL_SUFFIX[i] >= 0x5f;
    StemSuffixed(b, PARTIAL_SUFFIX);
    assert WindowsReserved(r) == WindowsReserved(b) by { SameStem(r, b); }
    DotAfterIsNoSpace(b, PARTIAL_SUFFIX);
    PrintableIsNoSpace(r);
  }

  lemma SameStem(r: Bytes, b: Bytes)
    requires Stem(r) == Stem(b)
    ensures WindowsReserved(r) == WindowsReserved(b)
  {
  }

  lemma {:induction false} StemSuffixed(b: Bytes, t: Bytes)
    requires t != [] && t[0] == DOT
    ensures Stem(b + t) == Stem(b)
  {
    if b == [] {
      assert b + t == t;
    } else {
      assert (b + t)[1..] == b[1..] + t;
      StemSuffixed(b[1..], t);
    }
  }

  lemma DotAfterIsNoSpace(b: Bytes, t: Bytes)
    requires b != [] && LeadingSpace(b) == 0 && t != [] && t[0] == DOT
    ensures LeadingSpace(b + t) == 0
  {
    var s := b + t;
    assert s[..1] == b[..1];
    if |s| >= 2 { assert s[..2][0] == s[0] && s[..2][1] == s[1]; }
    if |s| >= 3 { assert s[..3][0] == s[0] && s[..3][1] == s[1] && s[..3][2] == s[2]; }
    if |b| >= 2 { assert b[..2] == s[..2]; }
    if |b| >= 3 { assert b[..3] == s[..3]; }
  }

  /** So a file completed under such a name does not survive a transfer of the stem. */
  lemma CompletedFileIsLost(c: Codec, fs: Files, name: Bytes)
    requires Lossless(c) && PartialPath(Sanitise(name)) in fs
    ensures var q := PartialPath(Sanitise(name));
            && Sanitise(q) == q
            && exists runs :: RunsAnnounceOnly(c, runs, {name}) && !Kept(fs, RunAll(c, fs, runs), q)
  {
    hide Sanitise, RunAll, Kept, RunsAnnounceOnly;
    PartialNameIsAllowed(name);
    SurvivesIff(c, fs, {name}, PartialPath(Sanitise(name)));
    assert !Apart(PartialPath(Sanitise(name)), {name});
  }
}
