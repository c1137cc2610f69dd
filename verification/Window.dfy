/**
 * Sender, receiver and the two FIFO queues between them as one transition system. The sender side takes
 * one iteration of the send loop per step, the receiver side one frame; the disk receiver and the
 * in-memory receiver are fed the same frames.
 */
module Window {
  import opened Prelude
  import opened Frames
  import opened Names
  import opened Receiver
  import opened ReceiverProofs
  import opened SendLoop

  datatype Phase = Sending | DoneSent | Stopped | AckOutOfOrder

  datatype Sys = Sys(
    src: Bytes, chunkSize: nat, window: nat,
    pos: nat, start: nat, base: nat, next: nat, eof: bool, phase: Phase,
    dataQ: seq<Frame>, ackQ: seq<SeqNo>,
    rs: Recv, fs: Files, m: Mem, done: bool, err: Option<ErrClass>)

  datatype Action =
    | Read(n: nat, atEof: bool)  // the reader hands out n bytes; atEof: together with io.EOF
    | TakeAck
    | Finish  // the loop ends and TransferDone is sent
    | Cancel  // the local context is cancelled: TagCancelled is sent
    | Abort  // remote cancel, read error or closed ack channel: nothing is sent
    | Deliver(env: Env)  // the receiver handles the oldest frame

  function ProgressOf(s: Sys): Progress {
    Progress(s.pos, s.base, s.next, s.eof)
  }

  predicate InLoop(s: Sys) {
    s.phase.Sending? && Looping(ProgressOf(s))
  }

  /** The receiver's disk may lose the sidecar, but takes the data, and the data channel carries acks. */
  predicate Works(env: Env) {
    env.dataWrite.Written? && env.ackOk && env.renameOk
  }

  predicate Enabled(s: Sys, a: Action) {
    match a
    case Read(n, atEof) =>
      && InLoop(s) && !MustAwaitAck(ProgressOf(s), s.window) && s.next < U64
      && s.pos + n <= |s.src| && n <= s.chunkSize
      && (atEof ==> s.pos + n == |s.src|) && (n == 0 ==> atEof)
    case TakeAck => InLoop(s) && MustAwaitAck(ProgressOf(s), s.window) && s.ackQ != []
    case Finish => s.phase.Sending? && !Looping(ProgressOf(s))
    case Cancel => InLoop(s)
    case Abort => InLoop(s)
    case Deliver(env) => s.dataQ != [] && !s.done && s.err.None? && Works(env)
  }

  function Do(c: Codec, s: Sys, a: Action): Sys
    requires Enabled(s, a)
  {
    match a
    case Read(n, atEof) =>
      var p := AfterRead(ProgressOf(s), n, atEof);
      var s' := s.(pos := p.pos, base := p.base, next := p.next, eof := p.eof);
      if n == 0 then s' else s'.(dataQ := s.dataQ + [Chunk(s.next, s.src[s.pos..s.pos + n])])
    case TakeAck =>
      var s' := s.(ackQ := s.ackQ[1..]);
      (match AfterAck(ProgressOf(s), s.ackQ[0])
       case None => s'.(phase := AckOutOfOrder)
       case Some(p) => s'.(pos := p.pos, base := p.base, next := p.next, eof := p.eof))
    case Finish => s.(phase := DoneSent, dataQ := s.dataQ + [Done])
    case Cancel => s.(phase := Stopped, dataQ := s.dataQ + [Cancelled])
    case Abort => s.(phase := Stopped)
    case Deliver(env) =>
      var frame := Encode(s.dataQ[0]);
      var st := Feed(c, s.rs, s.fs, frame, env);
      s.(dataQ := s.dataQ[1..], ackQ := s.ackQ + st.acks,
         rs := st.rs, fs := ApplyAll(s.fs, st.ops), m := MemFeed(c, s.m, frame, env.ackOk).m,
         done := st.done, err := st.err)
  }

  // ---------------------------------------------------------------- the invariant

  predicate OnlyChunks(q: seq<Frame>) {
    forall i :: 0 <= i < |q| ==> q[i].Chunk?
  }

  predicate ChunksButLast(q: seq<Frame>) {
    forall i :: 0 <= i < |q| - 1 ==> q[i].Chunk?
  }

  /** Acks on their way back, then chunks on their way out, are exactly base .. next - 1 in order. */
  ghost predicate InFlight(s: Sys) {
    && s.start <= s.base <= s.next <= s.base + s.window
    && s.next <= s.start + s.pos
    && s.pos <= |s.src|
    && s.ackQ + SeqNos(s.dataQ) == Range(s.base, s.next)
  }

  /** What the receiver holds followed by what is queued is exactly what has been read. */
  ghost predicate Accounted(c: Codec, s: Sys) {
    && Booked(s.rs, s.fs)
    && s.pos <= |s.src|
    && s.rs.header.value.size == |s.src| && s.rs.header.value.sha == c.sha(s.src)
    && s.rs.hashed + Payload(s.dataQ) == s.src[..s.pos]
    && s.m.header == s.rs.header && s.m.buf == s.m.hashed == s.rs.hashed
  }

  ghost predicate Completed(s: Sys) {
    && s.phase.DoneSent? && s.dataQ == []
    && s.rs.final in s.fs && s.fs[s.rs.final] == s.src
    && PartialPath(s.rs.base) !in s.fs
    && s.m.done && s.m.buf == s.src
  }

  ghost predicate Inv(c: Codec, s: Sys) {
    && s.window >= 1 && s.chunkSize >= 1
    && |s.src| < I64_LIMIT && s.start < I64_LIMIT
    && InFlight(s)
    && (s.eof ==> s.pos == |s.src|)
    && (s.err.Some? ==> !s.done && s.phase.Stopped? && s.err == Some(PeerCancelled))
    && (if s.done then Completed(s) && s.base == s.next
        else s.err.None? ==> Accounted(c, s))
    && match s.phase
       case Sending => !s.done && s.err.None? && OnlyChunks(s.dataQ)
       case DoneSent =>
         s.eof && s.base == s.next && s.ackQ == [] && s.err.None? && (s.done || s.dataQ == [Done])
       case Stopped =>
         !s.done && Done !in s.dataQ && ChunksButLast(s.dataQ)
       case AckOutOfOrder => false
  }

  lemma OnlyChunksCarry(q: seq<Frame>)
    requires OnlyChunks(q)
    ensures |SeqNos(q)| == |q|
    ensures forall i :: 0 <= i < |q| ==> SeqNos(q)[i] == q[i].seqNo
  {
    if q != [] {
      OnlyChunksCarry(q[1..]);
    }
  }

  lemma ReadKeeps(c: Codec, s: Sys, n: nat, atEof: bool)
    requires Inv(c, s) && Enabled(s, Read(n, atEof))
    ensures Inv(c, Do(c, s, Read(n, atEof)))
  {
    hide Booked, SeqNos, Payload;
    if n > 0 {
      var f := Chunk(s.next, s.src[s.pos..s.pos + n]);
      QueueSnoc(s.dataQ, f);
      RangeSnoc(s.ackQ, SeqNos(s.dataQ), s.base, s.next);
      ReadSnoc(s.rs.hashed, Payload(s.dataQ), s.src, s.pos, n);
    }
  }

  lemma RangeSnoc(acks: seq<nat>, queued: seq<nat>, base: nat, next: nat)
    requires base <= next && acks + queued == Range(base, next)
    ensures acks + (queued + [next]) == Range(base, next + 1)
  {
    assert acks + (queued + [next]) == (acks + queued) + [next];
  }

  lemma ReadSnoc(held: Bytes, queued: Bytes, src: Bytes, pos: nat, n: nat)
    requires pos + n <= |src| && held + queued == src[..pos]
    ensures held + (queued + src[pos..pos + n]) == src[..pos + n]
  {
    assert held + (queued + src[pos..pos + n]) == (held + queued) + src[pos..pos + n];
  }

  /** The oldest ack in the channel is always the one the sender waits for. */
  lemma AckIsExpected(c: Codec, s: Sys)
    requires Inv(c, s) && s.ackQ != []
    ensures s.ackQ[0] == s.base
    ensures s.base < s.next && s.ackQ[1..] + SeqNos(s.dataQ) == Range(s.base + 1, s.next)
  {
    var all := s.ackQ + SeqNos(s.dataQ);
    assert all[0] == s.ackQ[0];
    assert all[1..] == s.ackQ[1..] + SeqNos(s.dataQ);
    assert Range(s.base, s.next)[1..] == Range(s.base + 1, s.next);
  }

  lemma SenderKeeps(c: Codec, s: Sys, a: Action)
    requires Inv(c, s) && Enabled(s, a) && !a.Read? && !a.Deliver?
    ensures Inv(c, Do(c, s, a))
  {
    hide Encode;
    match a {
      case TakeAck =>
        AckIsExpected(c, s);
      case Finish =>
        assert s.ackQ + SeqNos(s.dataQ) == [];
        OnlyChunksCarry(s.dataQ);
        QueueSnoc(s.dataQ, Done);
      case Cancel =>
        QueueSnoc(s.dataQ, Cancelled);
      case Abort =>
    }
  }

  /** Feeding an encoded chunk is storing its payload, for both receivers. */
  lemma FeedChunk(c: Codec, rs: Recv, fs: Files, m: Mem, q: SeqNo, payload: Bytes, env: Env)
    requires Booked(rs, fs) && Works(env)
    requires m.header == rs.header && m.buf == m.hashed == rs.hashed
    requires |rs.hashed| + |payload| <= rs.header.value.size
    ensures var s := Feed(c, rs, fs, BuildChunk(q, payload), env);
            var m' := MemFeed(c, m, BuildChunk(q, payload), env.ackOk).m;
            && s == StoreChunk(c, rs, q, payload, env)
            && s.acks == [q] && !s.done && s.err.None?
            && s.rs.header == rs.header && s.rs.base == rs.base && s.rs.hashed == rs.hashed + payload
            && Booked(s.rs, ApplyAll(fs, s.ops))
            && m'.header == m.header && m'.done == m.done && m'.buf == m'.hashed == rs.hashed + payload
  {
    hide GetU64;
    ChunkBody(q, payload);
    StoredChunk(c, rs, fs, q, payload, env);
  }

  lemma DeliverChunkKeeps(c: Codec, s: Sys, env: Env)
    requires Inv(c, s) && Enabled(s, Deliver(env)) && s.dataQ[0].Chunk?
    ensures Inv(c, Do(c, s, Deliver(env)))
  {
    hide Feed, MemFeed, Booked, StoreChunk;
    var f := s.dataQ[0];
    var s' := Do(c, s, Deliver(env));
    assert Payload(s.dataQ) == f.payload + Payload(s.dataQ[1..]);
    assert SeqNos(s.dataQ) == [f.seqNo] + SeqNos(s.dataQ[1..]);
    ChunkFits(c, s);
    FeedChunk(c, s.rs, s.fs, s.m, f.seqNo, f.payload, env);
    assert s'.ackQ + SeqNos(s'.dataQ) == s.ackQ + SeqNos(s.dataQ);
    assert s'.rs.hashed + Payload(s'.dataQ) == s.rs.hashed + Payload(s.dataQ);
  }

  lemma DeliverControlKeeps(c: Codec, s: Sys, env: Env)
    requires Inv(c, s) && Enabled(s, Deliver(env)) && !s.dataQ[0].Chunk?
    ensures Inv(c, Do(c, s, Deliver(env)))
  {
    hide UniqueName;
    var s' := Do(c, s, Deliver(env));
    if s.phase.DoneSent? {
      assert Payload(s.dataQ) == [] && s.rs.hashed == s.src[..s.pos] == s.src;
      DoneMoves(c, s.rs, s.fs, env);
    } else {
      assert SeqNos(s.dataQ) == SeqNos(s'.dataQ) == [];
    }
  }

  /** Every step of the protocol keeps the invariant. */
  lemma StepKeeps(c: Codec, s: Sys, a: Action)
    requires Inv(c, s) && Enabled(s, a)
    ensures Inv(c, Do(c, s, a))
  {
    hide Do, Inv;
    if a.Read? {
      ReadKeeps(c, s, a.n, a.atEof);
    } else if !a.Deliver? {
      SenderKeeps(c, s, a);
    } else if s.dataQ[0].Chunk? {
      DeliverChunkKeeps(c, s, a.env);
    } else {
      DeliverControlKeeps(c, s, a.env);
    }
  }

  // ---------------------------------------------------------------- whole runs

  predicate Runs(c: Codec, s: Sys, acts: seq<Action>)
    decreases |acts|
  {
    acts == [] || (Enabled(s, acts[0]) && Runs(c, Do(c, s, acts[0]), acts[1..]))
  }

  function Exec(c: Codec, s: Sys, acts: seq<Action>): Sys
    requires Runs(c, s, acts)
    decreases |acts|
  {
    if acts == [] then s else Exec(c, Do(c, s, acts[0]), acts[1..])
  }

  /** Work left: unread bytes dominate, then frames and acks in flight, then the loop's own ending. */
  function Work(s: Sys): int {
    4 * (|s.src| - s.pos) + 2 * |s.dataQ| + |s.ackQ|
    + if s.phase.Sending? then (if s.eof then 3 else 4) else 0
  }

  lemma DeliveryShrinksWork(c: Codec, s: Sys, env: Env)
    requires Inv(c, s) && Enabled(s, Deliver(env))
    ensures 0 <= Work(Do(c, s, Deliver(env))) < Work(s)
  {
    hide Feed, MemFeed, StoreChunk, Booked, Encode;
    var f := s.dataQ[0];
    assert s.pos <= |s.src| by { InvBounds(c, s); }
    if f.Chunk? {
      ChunkFits(c, s);
      assert Encode(f) == BuildChunk(f.seqNo, f.payload) by { EncodedChunk(f); }
      FeedChunk(c, s.rs, s.fs, s.m, f.seqNo, f.payload, env);
    } else {
      ControlSendsNoAck(c, s.rs, s.fs, f, env);
    }
  }

  lemma InvBounds(c: Codec, s: Sys)
    requires Inv(c, s)
    ensures s.pos <= |s.src| < I64_LIMIT && s.chunkSize >= 1
  {
  }

  lemma EncodedChunk(f: Frame)
    requires f.Chunk?
    ensures Encode(f) == BuildChunk(f.seqNo, f.payload)
  {
  }

  /** The oldest queued chunk never exceeds the announced size. */
  lemma ChunkFits(c: Codec, s: Sys)
    requires Inv(c, s) && s.dataQ != [] && s.dataQ[0].Chunk? && s.err.None? && !s.done
    ensures Accounted(c, s) && |s.rs.hashed| + |s.dataQ[0].payload| <= s.rs.header.value.size
  {
    hide Booked;
    assert Payload(s.dataQ) == s.dataQ[0].payload + Payload(s.dataQ[1..]);
    assert |s.rs.hashed + Payload(s.dataQ)| == s.pos;
  }

  /** Every step of any party leaves less to do. */
  lemma WorkShrinks(c: Codec, s: Sys, a: Action)
    requires Inv(c, s) && Enabled(s, a)
    ensures 0 <= Work(Do(c, s, a)) < Work(s)
  {
    if a.Deliver? {
      DeliveryShrinksWork(c, s, a.env);
    } else {
      hide Accounted, Completed, SeqNos, Payload;
      assert s.pos <= |s.src| by { InvBounds(c, s); }
    }
  }

  lemma ControlSendsNoAck(c: Codec, rs: Recv, fs: Files, f: Frame, env: Env)
    requires !f.Chunk?
    ensures Feed(c, rs, fs, Encode(f), env).acks == []
  {
    hide UniqueName;
  }

  /** Safety and termination of every run: the invariant holds throughout and no run is longer than Work. */
  lemma {:induction false} RunsAreSafe(c: Codec, s: Sys, acts: seq<Action>)
    requires Inv(c, s) && Runs(c, s, acts)
    ensures Inv(c, Exec(c, s, acts))
    ensures |acts| + Work(Exec(c, s, acts)) <= Work(s)
    decreases |acts|
  {
    if acts != [] {
      StepKeeps(c, s, acts[0]);
      WorkShrinks(c, s, acts[0]);
      RunsAreSafe(c, Do(c, s, acts[0]), acts[1..]);
    }
  }

  /** In every reachable state acks arrive in order and Done means everything is acknowledged. */
  lemma ReachableStates(c: Codec, s0: Sys, acts: seq<Action>)
    requires Inv(c, s0) && Runs(c, s0, acts)
    ensures var s := Exec(c, s0, acts);
            && !s.phase.AckOutOfOrder?
            && s.base <= s.next <= s.base + s.window
            && s.ackQ + SeqNos(s.dataQ) == Range(s.base, s.next)
            && (Done in s.dataQ || s.done ==> s.base == s.next && s.eof && s.pos == |s.src|)
  {
    RunsAreSafe(c, s0, acts);
    var s := Exec(c, s0, acts);
  }

  const ALL_WELL := Env(true, true, true, true, Written, Written, true, true, true)

  /** The step some party can take next. */
  function NextAction(s: Sys): Action {
    if s.phase.Sending? then
      if !Looping(ProgressOf(s)) then Finish
      else if !MustAwaitAck(ProgressOf(s), s.window) then
        var n := Min(s.chunkSize, |s.src| - s.pos);
        if n > 0 then Read(n, false) else Read(0, true)
      else if s.ackQ != [] then TakeAck
      else Deliver(ALL_WELL)
    else Deliver(ALL_WELL)
  }

  /** No state is stuck: while the transfer is neither complete nor called off, a step is possible. */
  lemma NoDeadlock(c: Codec, s: Sys)
    requires Inv(c, s) && !s.done && !s.phase.Stopped?
    ensures Enabled(s, NextAction(s)) && NextAction(s) != Cancel && NextAction(s) != Abort
  {
    if InLoop(s) && MustAwaitAck(ProgressOf(s), s.window) && s.ackQ == [] {
      assert SeqNos(s.dataQ) == Range(s.base, s.next);
      assert s.dataQ != [];
    }
  }

  /** The window is used: an ack is awaited only with window chunks outstanding or all of the file sent, and otherwise the next read is due. */
  lemma WaitsOnlyWhenFull(c: Codec, s: Sys)
    requires Inv(c, s) && InLoop(s)
    ensures Enabled(s, TakeAck) ==> s.next - s.base == s.window || (s.eof && s.next > s.base)
    ensures var n := Min(s.chunkSize, |s.src| - s.pos);
            !s.eof && s.next - s.base < s.window ==> Enabled(s, Read(n, n == 0)) && !Enabled(s, TakeAck)
  {
    hide Accounted, Completed;
  }

  predicate Uninterrupted(acts: seq<Action>) {
    forall i :: 0 <= i < |acts| ==> !acts[i].Cancel? && !acts[i].Abort?
  }

  lemma {:induction false} NeverStops(c: Codec, s: Sys, acts: seq<Action>)
    requires Inv(c, s) && Runs(c, s, acts) && Uninterrupted(acts) && !s.phase.Stopped?
    ensures !Exec(c, s, acts).phase.Stopped?
    decreases |acts|
  {
    hide Feed, MemFeed;
    if acts != [] {
      StepKeeps(c, s, acts[0]);
      NeverStops(c, Do(c, s, acts[0]), acts[1..]);
    }
  }

  /**
   * Delivery: a run nobody interrupts, continued until no step is left, has stored exactly the source
   * bytes at the final path, and the in-memory receiver holds them too. Every such run is finite.
   */
  lemma Delivery(c: Codec, s: Sys, acts: seq<Action>)
    requires Inv(c, s) && Runs(c, s, acts) && Uninterrupted(acts) && !s.phase.Stopped?
    requires forall a: Action :: !Enabled(Exec(c, s, acts), a)
    ensures var e := Exec(c, s, acts);
            && e.done && e.rs.final in e.fs && e.fs[e.rs.final] == s.src
            && e.m.done && e.m.buf == s.src
    ensures |acts| <= Work(s)
  {
    RunsAreSafe(c, s, acts);
    NeverStops(c, s, acts);
    var e := Exec(c, s, acts);
    SourceFixed(c, s, acts);
    if !e.done {
      NoDeadlock(c, e);
    }
  }

  lemma {:induction false} SourceFixed(c: Codec, s: Sys, acts: seq<Action>)
    requires Runs(c, s, acts)
    ensures Exec(c, s, acts).src == s.src && Exec(c, s, acts).chunkSize == s.chunkSize
    decreases |acts|
  {
    hide Feed, MemFeed;
    if acts != [] {
      SourceFixed(c, Do(c, s, acts[0]), acts[1..]);
    }
  }

  // ---------------------------------------------------------------- calling off

  /** A local cancellation is the last thing sent. */
  lemma CancelIsSent(c: Codec, s: Sys)
    requires Enabled(s, Cancel)
    ensures var s' := Do(c, s, Cancel);
            s'.phase.Stopped? && s'.dataQ == s.dataQ + [Cancelled] && s'.fs == s.fs
  {
  }

  /** Once it has been sent, delivering what is queued ends the transfer at the receiver as cancelled by the peer. */
  lemma {:induction false} CancelArrives(c: Codec, s: Sys, envs: seq<Env>)
    requires Inv(c, s) && s.phase.Stopped? && s.err.None? && s.dataQ != [] && s.dataQ[|s.dataQ| - 1] == Cancelled
    requires |envs| == |s.dataQ| && forall i :: 0 <= i < |envs| ==> Works(envs[i])
    ensures var acts := seq(|envs|, i requires 0 <= i < |envs| => Deliver(envs[i]));
            Runs(c, s, acts) && Exec(c, s, acts).err == Some(PeerCancelled)
    decreases |envs|
  {
    hide Inv, Feed, MemFeed, Encode;
    var acts := seq(|envs|, i requires 0 <= i < |envs| => Deliver(envs[i]));
    var env := envs[0];
    assert !s.done by { StoppedIsNotDone(c, s); }
    var s' := Do(c, s, Deliver(env));
    StepKeeps(c, s, Deliver(env));
    if |s.dataQ| > 1 {
      QueuedChunkTaken(c, s, env);
      CancelArrives(c, s', envs[1..]);
      assert acts[1..] == seq(|envs[1..]|, i requires 0 <= i < |envs[1..]| => Deliver(envs[1..][i]));
    } else {
      CancelledFrame(c, s, env);
      assert acts[1..] == [] && Exec(c, s', []) == s';
    }
  }

  lemma StoppedIsNotDone(c: Codec, s: Sys)
    requires Inv(c, s) && s.phase.Stopped?
    ensures !s.done
  {
  }

  lemma QueuedChunkTaken(c: Codec, s: Sys, env: Env)
    requires Inv(c, s) && s.phase.Stopped? && s.err.None? && !s.done && |s.dataQ| > 1 && Works(env)
    ensures var s' := Do(c, s, Deliver(env));
            s'.phase.Stopped? && s'.err.None? && s'.dataQ == s.dataQ[1..]
  {
    hide Feed, MemFeed, Encode, StoreChunk;
    var f := s.dataQ[0];
    assert f.Chunk?;
    ChunkFits(c, s);
    assert Encode(f) == BuildChunk(f.seqNo, f.payload) by { EncodedChunk(f); }
    FeedChunk(c, s.rs, s.fs, s.m, f.seqNo, f.payload, env);
  }

  lemma CancelledFrame(c: Codec, s: Sys, env: Env)
    requires s.dataQ == [Cancelled] && !s.done && s.err.None? && Works(env)
    ensures Do(c, s, Deliver(env)).err == Some(PeerCancelled)
  {
  }
}
