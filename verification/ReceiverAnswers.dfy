/** What each kind of frame is answered with, by both receivers, in terms of the tag values on the wire. */
module ReceiverAnswers {
  import opened Prelude
  import opened Frames
  import opened Names
  import opened Receiver
  import opened ReceiverProofs

  /** The frame ends the transfer with e; nothing is written or acknowledged. */
  predicate Rejected(rs: Recv, s: Step, e: ErrClass) {
    s.err == Some(e) && !s.done && s.ops == [] && s.acks == [] && s.resumes == [] && s.rs.hashed == rs.hashed
  }

  predicate MemRejected(m: Mem, s: MemStep, e: ErrClass) {
    s.err == Some(e) && !s.done && s.acks == [] && s.m.buf == m.buf
  }

  /** TransferError and Cancelled end the transfer at once, each with its own error. */
  lemma ControlFramesEnd(c: Codec, rs: Recv, fs: Files, m: Mem, rest: Bytes, env: Env)
    ensures Rejected(rs, Feed(c, rs, fs, [6] + rest, env), SenderError)
    ensures MemRejected(m, MemFeed(c, m, [6] + rest, env.ackOk), SenderError)
    ensures Rejected(rs, Feed(c, rs, fs, [8] + rest, env), PeerCancelled)
    ensures MemRejected(m, MemFeed(c, m, [8] + rest, env.ackOk), PeerCancelled)
  {
  }

  /** Empty frames and frames with any other tag change nothing. */
  lemma OthersIgnored(c: Codec, rs: Recv, fs: Files, m: Mem, frame: Bytes, env: Env)
    requires frame == [] || frame[0] !in {1, 2, 4, 6, 8}
    ensures Feed(c, rs, fs, frame, env) == Step(rs, [], [], [], false, None)
    ensures MemFeed(c, m, frame, env.ackOk) == MemStep(m, [], false, None)
  {
  }

  /** Before a header, chunks and completion are errors. */
  lemma TooEarly(c: Codec, rs: Recv, fs: Files, m: Mem, rest: Bytes, env: Env)
    ensures rs.header.None? ==>
              && Rejected(rs, Feed(c, rs, fs, [2] + rest, env), BeforeHeader)
              && Rejected(rs, Feed(c, rs, fs, [4] + rest, env), BeforeHeader)
    ensures m.header.None? ==>
              && MemRejected(m, MemFeed(c, m, [2] + rest, env.ackOk), BeforeHeader)
              && MemRejected(m, MemFeed(c, m, [4] + rest, env.ackOk), BeforeHeader)
  {
  }

  /** A header that does not decode is an error. */
  lemma BadHeaders(c: Codec, rs: Recv, fs: Files, m: Mem, rest: Bytes, env: Env)
    requires c.decHeader(rest).None?
    ensures Rejected(rs, Feed(c, rs, fs, [1] + rest, env), BadHeader)
    ensures MemRejected(m, MemFeed(c, m, [1] + rest, env.ackOk), BadHeader)
  {
    assert ([1] + rest)[1..] == rest;
  }

  /** A chunk is short, or exceeds the announced size, or is stored and acknowledged under its number. */
  lemma ChunkAnswers(c: Codec, rs: Recv, fs: Files, rest: Bytes, env: Env)
    requires Booked(rs, fs)
    ensures var s := Feed(c, rs, fs, [2] + rest, env);
            if |rest| < 8 then Rejected(rs, s, ShortFrame)
            else if |rs.hashed| + |rest| - 8 > rs.header.value.size then Rejected(rs, s, TooMuch) && s.rs.handle.NoFile?
            else if !env.dataWrite.Written? then s.err == Some(WriteFailed) && s.acks == [] && s.rs.hashed == rs.hashed
            else
              && s.rs.hashed == rs.hashed + rest[8..] && !s.done
              && (if env.ackOk then s.err == None && s.acks == [GetU64(rest[..8])] else s.err == Some(PeerCancelled) && s.acks == [])
  {
    hide GetU64;
    assert ([2] + rest)[1..] == rest;
  }

  lemma MemChunkAnswers(c: Codec, m: Mem, rest: Bytes, ackOk: bool)
    requires m.header.Some?
    ensures var s := MemFeed(c, m, [2] + rest, ackOk);
            if |rest| < 8 then MemRejected(m, s, ShortFrame)
            else if |m.buf| + |rest| - 8 > m.header.value.size then MemRejected(m, s, TooMuch)
            else
              && s.m.buf == m.buf + rest[8..] && !s.done
              && (if ackOk then s.err == None && s.acks == [GetU64(rest[..8])] else s.err == Some(PeerCancelled) && s.acks == [])
  {
    hide GetU64;
    assert ([2] + rest)[1..] == rest;
  }

  /** After a chunk that exceeded the size the partial is closed, and later chunks and completion are refused. */
  lemma ClosedAfterTooMuch(c: Codec, rs: Recv, fs: Files, rest: Bytes, env: Env)
    requires rs.handle.NoFile?
    ensures Rejected(rs, Feed(c, rs, fs, [2] + rest, env), BeforeHeader)
    ensures Rejected(rs, Feed(c, rs, fs, [4] + rest, env), BeforeHeader)
  {
  }

  /** Completion with the wrong digest is an error that leaves every file in place; the right digest completes. */
  lemma DoneAnswers(c: Codec, rs: Recv, fs: Files, m: Mem, rest: Bytes, env: Env)
    ensures Booked(rs, fs) && c.sha(rs.hashed) != rs.header.value.sha ==> Rejected(rs, Feed(c, rs, fs, [4] + rest, env), Integrity)
    ensures Booked(rs, fs) && c.sha(rs.hashed) == rs.header.value.sha && !env.renameOk ==>
              Rejected(rs, Feed(c, rs, fs, [4] + rest, env), RenameFailed)
    ensures Booked(rs, fs) && c.sha(rs.hashed) == rs.header.value.sha && env.renameOk ==>
              Feed(c, rs, fs, [4] + rest, env).done && Feed(c, rs, fs, [4] + rest, env).err.None?
    ensures m.header.Some? && c.sha(m.hashed) != m.header.value.sha ==>
              MemRejected(m, MemFeed(c, m, [4] + rest, env.ackOk), Integrity)
    ensures m.header.Some? && c.sha(m.hashed) == m.header.value.sha ==>
              MemFeed(c, m, [4] + rest, env.ackOk).done && MemFeed(c, m, [4] + rest, env.ackOk).m.done
  {
    hide UniqueName;
  }

  /** Whatever has come before and whatever follows, a cancellation is where the transfer ends, with the files as they were. */
  lemma {:induction false} CancellationIsFinal(c: Codec, rs: Recv, fs: Files, ins: seq<Input>, rest: Bytes, env: Env, more: seq<Input>)
    requires !RunDisk(c, rs, fs, ins).done && RunDisk(c, rs, fs, ins).err.None?
    ensures var t, u := RunDisk(c, rs, fs, ins), RunDisk(c, rs, fs, ins + [Input([8] + rest, env)] + more);
            !u.done && u.err == Some(PeerCancelled) && u.fs == t.fs && u.acks == t.acks
    decreases |ins|
  {
    hide Feed;
    var all := ins + [Input([8] + rest, env)] + more;
    if ins == [] {
      assert all[0] == Input([8] + rest, env);
      ControlFramesEnd(c, rs, fs, Mem(None, [], [], false, []), rest, env);
    } else {
      var s := Feed(c, rs, fs, ins[0].frame, ins[0].env);
      assert all[0] == ins[0] && all[1..] == ins[1..] + [Input([8] + rest, env)] + more;
      CancellationIsFinal(c, s.rs, ApplyAll(fs, s.ops), ins[1..], rest, env, more);
    }
  }
}
