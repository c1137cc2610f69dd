/** The sliding-window send loop as code: a reader, an acknowledgement channel, and runFromReader. */
module SendLoop {
  import opened Prelude
  import opened Frames

  const MAX_CHUNK_SIZE := 65526
  const DEFAULT_CHUNK_SIZE := 65526

  datatype Frame = Chunk(seqNo: SeqNo, payload: Bytes) | Done | Cancelled

  function Encode(f: Frame): Bytes {
    match f
    case Chunk(q, p) => BuildChunk(q, p)
    case Done => [TAG_TRANSFER_DONE]
    case Cancelled => [TAG_CANCELLED]
  }

  function Range(a: nat, b: nat): (r: seq<nat>)
    requires a <= b
    ensures |r| == b - a
    ensures forall i :: 0 <= i < b - a ==> r[i] == a + i
  {
    seq(b - a, i => a + i)
  }

  function SeqNos(q: seq<Frame>): seq<nat> {
    if q == [] then [] else (if q[0].Chunk? then [q[0].seqNo] else []) + SeqNos(q[1..])
  }

  function Payload(q: seq<Frame>): Bytes {
    if q == [] then [] else (if q[0].Chunk? then q[0].payload else []) + Payload(q[1..])
  }

  lemma {:induction false} SeqNosSnoc(q: seq<Frame>, f: Frame)
    ensures SeqNos(q + [f]) == SeqNos(q) + if f.Chunk? then [f.seqNo] else []
  {
    if q == [] {
      assert q + [f] == [f] && [f][1..] == [];
    } else {
      assert (q + [f])[0] == q[0] && (q + [f])[1..] == q[1..] + [f];
      SeqNosSnoc(q[1..], f);
    }
  }

  lemma {:induction false} PayloadSnoc(q: seq<Frame>, f: Frame)
    ensures Payload(q + [f]) == Payload(q) + if f.Chunk? then f.payload else []
  {
    if q == [] {
      assert q + [f] == [f] && [f][1..] == [];
    } else {
      assert (q + [f])[0] == q[0] && (q + [f])[1..] == q[1..] + [f];
      PayloadSnoc(q[1..], f);
    }
  }

  lemma QueueSnoc(q: seq<Frame>, f: Frame)
    ensures SeqNos(q + [f]) == SeqNos(q) + if f.Chunk? then [f.seqNo] else []
    ensures Payload(q + [f]) == Payload(q) + if f.Chunk? then f.payload else []
  {
    SeqNosSnoc(q, f);
    PayloadSnoc(q, f);
  }

  /** What io.Reader says besides the bytes it hands out: nothing, io.EOF, or another error. */
  datatype ReadStatus = More | AtEof | Broken

  /** Reading from pos fails before offset is reached. */
  predicate BreaksWithin(breaksAt: Option<nat>, pos: int, offset: int) {
    breaksAt.Some? && pos <= breaksAt.value < offset
  }

  /** An io.ReadSeeker over the file's bytes: a regular file, or a stream that only seeks forward. */
  class Reader {
    const src: Bytes
    const seekable: bool
    const shortRead: nat -> nat  // how much the source hands out at each position
    const eagerEof: bool  // whether EOF comes with the last bytes or after them
    const breaksAt: Option<nat>  // where reading fails, if it does
    const stalls: (nat, nat) -> bool  // whether a read yields nothing and no error
    var pos: nat
    var idle: nat  // how many reads may still do that

    ghost predicate Valid()
      reads this
    {
      pos <= |src|
    }

    constructor (src: Bytes, seekable: bool, shortRead: nat -> nat, eagerEof: bool,
                 breaksAt: Option<nat>, stalls: (nat, nat) -> bool, idle: nat)
      ensures this.src == src && this.seekable == seekable && pos == 0 && Valid()
      ensures this.breaksAt == breaksAt
    {
      this.src, this.seekable, pos, this.idle := src, seekable, 0, idle;
      this.shortRead, this.eagerEof, this.breaksAt, this.stalls := shortRead, eagerEof, breaksAt, stalls;
    }

    /** Any number of the remaining bytes up to max; EOF or an error may come with the last of them or after. */
    method Read(max: nat) returns (data: Bytes, status: ReadStatus)
      requires Valid() && max >= 1
      modifies this
      ensures Valid() && pos == old(pos) + |data| && data == src[old(pos)..pos]
      ensures |data| <= max && idle <= old(idle)
      ensures data == [] && status.More? ==> idle < old(idle)
      ensures status.AtEof? ==> pos == |src|
      ensures status.Broken? ==> breaksAt == Some(pos)
    {
      if idle > 0 && stalls(pos, idle) {
        idle := idle - 1;
        return [], More;
      }
      var end := match breaksAt case Some(b) => if pos <= b <= |src| then b else |src| case None => |src|;
      var n := Min(Min(max, end - pos), 1 + shortRead(pos));
      data := src[pos..pos + n];
      pos := pos + n;
      if n > 0 && (!eagerEof || pos < end) {
        return data, More;
      }
      return data, if breaksAt == Some(pos) then Broken else AtEof;
    }

    /**
     * A file can be positioned anywhere from its start on, past its end included. A stream skips forward by
     * reading, so it gets nowhere behind its position, past its end, or past the point where it breaks.
     */
    method Seek(offset: int) returns (ok: bool)
      requires Valid()
      modifies this`pos
      ensures Valid()
      ensures ok <==> offset >= 0 && (seekable || (old(pos) <= offset <= |src| && !BreaksWithin(breaksAt, old(pos), offset)))
      ensures ok ==> pos == Min(offset, |src|)
    {
      if seekable {
        if offset < 0 {
          return false;
        }
        pos := Min(offset, |src|);
        return true;
      }
      if offset < pos {
        return false;
      }
      if BreaksWithin(breaksAt, pos, Min(offset, |src|)) {
        pos := breaksAt.value;
        return false;
      }
      if offset > |src| {
        pos := |src|;
        return false;
      }
      pos := offset;
      return true;
    }
  }

  /** What a select on the contexts picks when an ack or the default case is there too. */
  datatype Choice = Proceed | LocalCancel | RemoteCancel

  /** The outside world of the loop: cancellations, and whether the data channel takes a frame. */
  class Surroundings {
    const chooses: nat -> Choice
    const takes: nat -> bool
    var asked: nat
    var offered: nat

    constructor (chooses: nat -> Choice, takes: nat -> bool)
      ensures this.chooses == chooses && this.takes == takes && asked == offered == 0
    {
      this.chooses, this.takes, asked, offered := chooses, takes, 0, 0;
    }

    method Poll() returns (ch: Choice)
      modifies this`asked
      ensures asked == old(asked) + 1 && ch == chooses(old(asked))
    {
      ch := chooses(asked);
      asked := asked + 1;
    }

    method Offer() returns (ok: bool)
      modifies this`offered
      ensures offered == old(offered) + 1 && ok == takes(old(offered))
    {
      ok := takes(offered);
      offered := offered + 1;
    }
  }

  /** Acknowledgements in the order they arrive; closed once they are used up. */
  class AckChannel {
    var pending: seq<SeqNo>
    ghost var taken: seq<SeqNo>

    constructor (acks: seq<SeqNo>)
      ensures pending == acks && taken == []
    {
      pending, taken := acks, [];
    }

    method Recv() returns (r: Option<SeqNo>)
      modifies this
      ensures old(pending) == [] ==> r == None && pending == [] && taken == old(taken)
      ensures old(pending) != [] ==>
                r == Some(old(pending)[0]) && pending == old(pending)[1..] && taken == old(taken) + [old(pending)[0]]
    {
      if pending == [] {
        return None;
      }
      r := Some(pending[0]);
      taken := taken + [pending[0]];
      pending := pending[1..];
    }
  }

  /** ErrCancelled stands for a remote cancel and for a closed ack channel, which the code does not tell apart. */
  datatype SendError =
    | SeekFailed | ErrCancelled | ContextDone | ReadFailed | SendFailed | OutOfOrderAck(got: SeqNo, want: nat)

  /** int64(startSeq) * int64(chunkSize), in 64 bits. */
  function SeekOffset(startSeq: SeqNo, chunkSize: nat): int {
    Wrap64(Wrap64(startSeq) * chunkSize)
  }

  /** Positioning a reader that stands at its start fails; seekable and breaksAt are the reader's. */
  predicate SeekFails(startSeq: SeqNo, chunkSize: nat, size: nat, seekable: bool, breaksAt: Option<nat>) {
    var offset := SeekOffset(startSeq, chunkSize);
    startSeq > 0 && (offset < 0 || (!seekable && (offset > size || BreaksWithin(breaksAt, 0, offset))))
  }

  /** Where sending starts once the seek has worked. */
  function SendFrom(startSeq: SeqNo, chunkSize: nat, size: nat): (from: nat)
    ensures from <= size
  {
    if startSeq == 0 || SeekOffset(startSeq, chunkSize) < 0 then 0 else Min(SeekOffset(startSeq, chunkSize), size)
  }

  /** The offset is that of the chunk asked for if and only if the product fits in 64 signed bits. */
  lemma SeekOffsetIff(startSeq: SeqNo, chunkSize: nat)
    requires 1 <= chunkSize <= MAX_CHUNK_SIZE
    ensures SeekOffset(startSeq, chunkSize) == startSeq * chunkSize <==> startSeq * chunkSize < I64_LIMIT
  {
    if startSeq >= I64_LIMIT {
      MulMono(1, chunkSize, startSeq);
    }
  }

  /** A wrapped offset can look like the start of the file. */
  lemma SeekToStart()
    ensures SeekOffset(0x2_0000_0000_0000, 32768) == 0
    ensures SeekOffset(0x1_0000_0000_0000, MAX_CHUNK_SIZE) < 0
  {
  }

  /** For a file whose size times the chunk size fits in 64 bits, no resume number makes chunk numbers wrap around. */
  lemma NumbersFit(startSeq: SeqNo, chunkSize: nat, size: nat)
    requires chunkSize >= 1 && size * chunkSize <= I64_LIMIT
    ensures startSeq + size < U64 || SeekOffset(startSeq, chunkSize) < 0
  {
    if startSeq + size >= U64 {
      var k := U64 - startSeq;
      MulMono(k, size, chunkSize);
      MulMono(1, chunkSize, size);
      MulMono(1, chunkSize, k);
      assert -k * chunkSize == -(k * chunkSize);
    }
  }

  function ClampWindow(w: int): nat {
    if w < 1 then 1 else w
  }

  function ClampChunkSize(n: int): nat {
    if n < 1 then DEFAULT_CHUNK_SIZE else if n > MAX_CHUNK_SIZE then MAX_CHUNK_SIZE else n
  }

  /** Where the send loop is: bytes read, oldest unacknowledged chunk, next chunk, end of file seen. */
  datatype Progress = Progress(pos: nat, base: nat, next: nat, eof: bool)

  /** The condition of the send loop. */
  predicate Looping(p: Progress) {
    !p.eof || p.next > p.base
  }

  predicate MustAwaitAck(p: Progress, window: nat) {
    p.next - p.base >= window || (p.eof && p.next > p.base)
  }

  /** One read of n bytes; atEof: it came with io.EOF. A read of nothing sends nothing. */
  function AfterRead(p: Progress, n: nat, atEof: bool): Progress {
    Progress(p.pos + n, p.base, if n > 0 then p.next + 1 else p.next, atEof)
  }

  /** Only the oldest outstanding chunk may be acknowledged. */
  function AfterAck(p: Progress, q: SeqNo): Option<Progress> {
    if q != p.base then None else Some(p.(base := p.base + 1))
  }

  lemma OneMoreTaken(a: nat, b: nat)
    requires a <= b
    ensures Range(a, b) + [b] == Range(a, b + 1)
  {
  }

  class Sender {
    const window: nat
    const chunkSize: nat
    var base: nat
    var nextSeq: nat
    var fileEOF: bool
    var sent: seq<Frame>

    constructor (windowSize: int, chunkSize: int)
      ensures window == ClampWindow(windowSize) && this.chunkSize == ClampChunkSize(chunkSize)
      ensures window >= 1 && (windowSize >= 1 ==> window == windowSize) && (windowSize < 1 ==> window == 1)
      ensures 1 <= chunkSize <= 65526 ==> this.chunkSize == chunkSize
      ensures !(1 <= chunkSize <= 65526) ==> this.chunkSize == 65526
      ensures sent == []
    {
      window := ClampWindow(windowSize);
      this.chunkSize := ClampChunkSize(chunkSize);
      base, nextSeq, fileEOF, sent := 0, 0, false, [];
    }

    function Now(r: Reader): Progress
      reads this, r
    {
      Progress(r.pos, base, nextSeq, fileEOF)
    }

    /** What the loop keeps: everything read has been sent in order, everything before base is acknowledged. */
    ghost predicate Windowed(r: Reader, acks: AckChannel, startSeq: nat, from: nat)
      reads this, r, acks
    {
      r.Valid() && SentUpTo(r.src, r.pos, acks.taken, startSeq, from)
    }

    ghost predicate SentUpTo(src: Bytes, pos: nat, taken: seq<SeqNo>, startSeq: nat, from: nat)
      reads this
    {
      && from <= pos <= |src|
      && startSeq <= base <= nextSeq <= base + window
      && nextSeq - startSeq == |sent| <= pos - from
      && (forall i :: 0 <= i < |sent| ==> sent[i].Chunk? && 1 <= |sent[i].payload| <= chunkSize)
      && SeqNos(sent) == Range(startSeq, nextSeq)
      && Payload(sent) == src[from..pos]
      && taken == Range(startSeq, base)
      && (fileEOF ==> pos == |src|)
    }

    /** What has been sent, whatever happened: consecutive chunks of the source from the seek offset on. */
    ghost predicate SentChunks(src: Bytes, startSeq: nat, from: nat, chunks: seq<Frame>)
    {
      && from <= |src|
      && (forall i :: 0 <= i < |chunks| ==> chunks[i].Chunk? && 1 <= |chunks[i].payload| <= chunkSize)
      && SeqNos(chunks) == Range(startSeq, startSeq + |chunks|)
      && Payload(chunks) <= src[from..]
    }

    /** A loop that failed has sent chunks only, perhaps followed by TagCancelled if it was cancelled here. */
    ghost predicate Failed(src: Bytes, startSeq: nat, from: nat, err: SendError)
      reads this
    {
      || SentChunks(src, startSeq, from, sent)
      || (err == ContextDone && sent != [] && sent[|sent| - 1] == Cancelled
          && SentChunks(src, startSeq, from, sent[..|sent| - 1]))
    }

    lemma WindowedSent(r: Reader, acks: AckChannel, startSeq: nat, from: nat)
      requires Windowed(r, acks, startSeq, from)
      ensures SentChunks(r.src, startSeq, from, sent)
    {
      assert r.src[from..r.pos] <= r.src[from..];
    }

    /** So far every poll since asked said to go on, and every frame offered since offered was taken and is in sent. */
    ghost predicate Calm(env: Surroundings, asked: nat, offered: nat)
      reads this, env
    {
      && asked <= env.asked && (forall i :: asked <= i < env.asked ==> env.chooses(i).Proceed?)
      && offered <= env.offered && (forall i :: offered <= i < env.offered ==> env.takes(i))
      && |sent| == env.offered - offered
    }

    /** An ack was awaited with this many chunks outstanding: only with a full window, or at the end of the file. */
    ghost predicate HadToWait(outstanding: int)
      reads this
    {
      outstanding == window || (fileEOF && outstanding > 0)
    }

    /** Why the loop ended with err: all polls and offers before the last went well, and the last ones say why. */
    ghost predicate Cause(env: Surroundings, asked: nat, offered: nat, r: Reader, acks: AckChannel, from: nat, err: SendError)
      reads this, env, r, acks
    {
      && asked < env.asked && offered <= env.offered
      && (forall i :: asked <= i < env.asked - 1 ==> env.chooses(i).Proceed?)
      && (forall i :: offered <= i < env.offered - 1 ==> env.takes(i))
      && var last := env.chooses(env.asked - 1);
         var taken := env.offered > offered ==> env.takes(env.offered - 1);
         && |sent| == env.offered - offered - (if taken then 0 else 1)
         && (err == ContextDone <==> last.LocalCancel?)
         && (err == ContextDone ==> env.offered > offered && (taken <==> Cancelled in sent))
         && (err == SendFailed <==> !taken && last.Proceed?)
         && (last.RemoteCancel? ==> err == ErrCancelled)
         && (err == ErrCancelled && !last.RemoteCancel? ==> acks.pending == [] && HadToWait(|sent| - |acks.taken|))
         && (err.OutOfOrderAck? ==> HadToWait(|sent| - |acks.taken| + 1))
         && (err == ReadFailed ==> r.breaksAt == Some(r.pos) && from <= r.pos <= |r.src| && Payload(sent) == r.src[from..r.pos])
    }

    lemma SentIsFailed(src: Bytes, pos: nat, taken: seq<SeqNo>, startSeq: nat, from: nat, e: SendError)
      requires SentUpTo(src, pos, taken, startSeq, from)
      ensures Failed(src, startSeq, from, e)
    {
      assert src[from..pos] <= src[from..];
    }

    lemma RefusedCause(env: Surroundings, asked: nat, offered: nat, r: Reader, acks: AckChannel, from: nat)
      requires asked < env.asked && forall i :: asked <= i < env.asked ==> env.chooses(i).Proceed?
      requires offered < env.offered && !env.takes(env.offered - 1) && |sent| == env.offered - 1 - offered
      requires forall i :: offered <= i < env.offered - 1 ==> env.takes(i)
      ensures Cause(env, asked, offered, r, acks, from, SendFailed)
    {
    }

    lemma BrokenCause(env: Surroundings, asked: nat, offered: nat, r: Reader, acks: AckChannel, startSeq: nat, from: nat)
      requires Calm(env, asked, offered) && asked < env.asked && r.breaksAt == Some(r.pos)
      requires Windowed(r, acks, startSeq, from)
      ensures Cause(env, asked, offered, r, acks, from, ReadFailed)
    {
    }

    lemma OnlyChunksSent(src: Bytes, startSeq: nat, from: nat)
      requires SentChunks(src, startSeq, from, sent)
      ensures forall i :: 0 <= i < |sent| ==> sent[i].Chunk?
    {
    }

    /** The cancellation cases of a select. Cancelled here: tell the peer, if the channel still takes it. */
    method Interrupted(r: Reader, acks: AckChannel, env: Surroundings, ghost startSeq: nat, ghost from: nat,
                       ghost asked: nat, ghost offered: nat) returns (err: Option<SendError>)
      requires SentChunks(r.src, startSeq, from, sent) && Calm(env, asked, offered)
      modifies this`sent, env
      ensures env.asked == old(env.asked) + 1 > asked
      ensures var ch := env.chooses(old(env.asked));
              && err == (if ch.Proceed? then None else if ch.LocalCancel? then Some(ContextDone) else Some(ErrCancelled))
              && env.offered == old(env.offered) + (if ch.LocalCancel? then 1 else 0)
              && sent == old(sent) + if ch.LocalCancel? && env.takes(old(env.offered)) then [Cancelled] else []
      ensures err.None? ==> Calm(env, asked, offered) && sent == old(sent)
      ensures err.Some? ==> Failed(r.src, startSeq, from, err.value) && Cause(env, asked, offered, r, acks, from, err.value)
    {
      hide SentChunks;
      assert forall i :: 0 <= i < |sent| ==> sent[i].Chunk? by { OnlyChunksSent(r.src, startSeq, from); }
      var ch := env.Poll();
      match ch {
        case Proceed =>
          return None;
        case RemoteCancel =>
          return Some(ErrCancelled);
        case LocalCancel =>
          var ok := env.Offer();
          if ok {
            sent := sent + [Cancelled];
            assert sent[..|sent| - 1] == old(sent);
          }
          return Some(ContextDone);
      }
    }

    method AwaitAck(r: Reader, acks: AckChannel, env: Surroundings, ghost startSeq: nat, ghost from: nat,
                    ghost asked: nat, ghost offered: nat) returns (err: Option<SendError>)
      requires window >= 1 && Windowed(r, acks, startSeq, from) && MustAwaitAck(Now(r), window) && Calm(env, asked, offered)
      modifies this`base, this`sent, acks, env
      ensures err.None? ==>
                && Windowed(r, acks, startSeq, from) && sent == old(sent) && Calm(env, asked, offered)
                && old(acks.pending) != [] && Some(Now(r)) == AfterAck(old(Now(r)), old(acks.pending)[0])
      ensures err.Some? ==> Failed(r.src, startSeq, from, err.value)
      ensures err.Some? ==> Cause(env, asked, offered, r, acks, from, err.value)
      ensures err.Some? && err.value.OutOfOrderAck? ==>
                && err.value.want == base == startSeq + |acks.taken| - 1
                && |acks.taken| > 0 && acks.taken[|acks.taken| - 1] == err.value.got != base
      ensures err != Some(SeekFailed) && err != Some(ReadFailed)
    {
      hide SentChunks, SeqNos, Payload, Range, Cause, Failed;
      WindowedSent(r, acks, startSeq, from);
      err := Interrupted(r, acks, env, startSeq, from, asked, offered);
      if err.Some? {
        return;
      }
      err := TakeAck(r, acks, env, startSeq, from, asked, offered);
    }

    /** The ack case: only the oldest outstanding chunk may be acknowledged. */
    method TakeAck(r: Reader, acks: AckChannel, env: Surroundings, ghost startSeq: nat, ghost from: nat,
                   ghost asked: nat, ghost offered: nat) returns (err: Option<SendError>)
      requires window >= 1 && Windowed(r, acks, startSeq, from) && MustAwaitAck(Now(r), window)
      requires Calm(env, asked, offered) && env.asked > asked
      modifies this`base, acks
      ensures err.None? ==>
                && Windowed(r, acks, startSeq, from)
                && old(acks.pending) != [] && Some(Now(r)) == AfterAck(old(Now(r)), old(acks.pending)[0])
      ensures err.Some? ==> Failed(r.src, startSeq, from, err.value)
      ensures err.Some? ==> Cause(env, asked, offered, r, acks, from, err.value)
      ensures err.Some? && err.value.OutOfOrderAck? ==>
                && err.value.want == base == startSeq + |acks.taken| - 1
                && |acks.taken| > 0 && acks.taken[|acks.taken| - 1] == err.value.got != base
      ensures err.Some? ==> err.value.ErrCancelled? || err.value.OutOfOrderAck?
    {
      hide SentChunks, SeqNos, Payload, Range;
      WindowedSent(r, acks, startSeq, from);
      var a := acks.Recv();
      if a.None? {
        return Some(ErrCancelled);
      }
      if a.value != base {
        return Some(OutOfOrderAck(a.value, base));
      }
      OneMoreTaken(startSeq, base);
      assert acks.taken == Range(startSeq, base) + [base];
      base := base + 1;
      return None;
    }

    method SendChunk(env: Surroundings, data: Bytes, ghost src: Bytes, ghost pos: nat,
                     ghost taken: seq<SeqNo>, ghost startSeq: nat, ghost from: nat) returns (ok: bool)
      requires SentUpTo(src, pos, taken, startSeq, from) && nextSeq - base < window && !fileEOF && nextSeq < U64
      requires 1 <= |data| <= chunkSize && pos + |data| <= |src| && data == src[pos..pos + |data|]
      modifies this`sent, this`nextSeq, env`offered
      ensures env.offered == old(env.offered) + 1 && ok == env.takes(old(env.offered))
      ensures ok ==> SentUpTo(src, pos + |data|, taken, startSeq, from) && nextSeq == old(nextSeq) + 1
      ensures ok ==> sent == old(sent) + [Chunk(old(nextSeq), data)]
      ensures !ok ==> sent == old(sent) && nextSeq == old(nextSeq)
    {
      ok := env.Offer();
      if !ok {
        return;
      }
      var f := Chunk(nextSeq, data);
      QueueSnoc(sent, f);
      SliceSlice(src, from, pos, pos + |data|);
      OneMoreTaken(startSeq, nextSeq);
      sent := sent + [f];
      nextSeq := nextSeq + 1;
    }

    method SendNext(r: Reader, acks: AckChannel, env: Surroundings, ghost startSeq: nat, ghost from: nat,
                    ghost asked: nat, ghost offered: nat) returns (err: Option<SendError>)
      requires Windowed(r, acks, startSeq, from) && Calm(env, asked, offered)
      requires Looping(Now(r)) && !MustAwaitAck(Now(r), window) && chunkSize >= 1
      requires nextSeq + |r.src| - r.pos < U64
      modifies this`sent, this`nextSeq, this`fileEOF, r, env
      ensures r.Valid() && r.pos >= old(r.pos) && r.idle <= old(r.idle)
      ensures err.None? ==>
                && Windowed(r, acks, startSeq, from) && Calm(env, asked, offered)
                && (r.pos > old(r.pos) || fileEOF || r.idle < old(r.idle))
                && Now(r) == AfterRead(old(Now(r)), r.pos - old(r.pos), fileEOF)
                && sent == old(sent) + (if r.pos > old(r.pos) then [Chunk(old(nextSeq), r.src[old(r.pos)..r.pos])] else [])
      ensures err.Some? ==> Failed(r.src, startSeq, from, err.value)
      ensures err.Some? ==> Cause(env, asked, offered, r, acks, from, err.value)
      ensures err.Some? ==> err.value in {ContextDone, ErrCancelled, ReadFailed, SendFailed}
    {
      hide SentChunks, SeqNos, Payload, Range, Cause, Failed;
      WindowedSent(r, acks, startSeq, from);
      err := Interrupted(r, acks, env, startSeq, from, asked, offered);
      if err.Some? {
        return;
      }
      err := ReadAndSend(r, acks, env, startSeq, from, asked, offered);
    }

    /** The default case: one read, sent as the next chunk unless it is empty. */
    method ReadAndSend(r: Reader, acks: AckChannel, env: Surroundings, ghost startSeq: nat, ghost from: nat,
                       ghost asked: nat, ghost offered: nat) returns (err: Option<SendError>)
      requires Windowed(r, acks, startSeq, from) && Calm(env, asked, offered) && env.asked > asked
      requires Looping(Now(r)) && !MustAwaitAck(Now(r), window) && chunkSize >= 1
      requires nextSeq + |r.src| - r.pos < U64
      modifies this`sent, this`nextSeq, this`fileEOF, r, env`offered
      ensures r.Valid() && r.pos >= old(r.pos) && r.idle <= old(r.idle)
      ensures err.None? ==>
                && Windowed(r, acks, startSeq, from) && Calm(env, asked, offered)
                && (r.pos > old(r.pos) || fileEOF || r.idle < old(r.idle))
                && Now(r) == AfterRead(old(Now(r)), r.pos - old(r.pos), fileEOF)
                && sent == old(sent) + (if r.pos > old(r.pos) then [Chunk(old(nextSeq), r.src[old(r.pos)..r.pos])] else [])
      ensures err.Some? ==> Failed(r.src, startSeq, from, err.value)
      ensures err.Some? ==> Cause(env, asked, offered, r, acks, from, err.value)
      ensures err.Some? ==> err.value in {ReadFailed, SendFailed}
    {
      hide SentChunks, SeqNos, Payload, Range, Failed, Cause;
      var data, status := r.Read(chunkSize);
      if |data| > 0 {
        var ok := SendChunk(env, data, r.src, old(r.pos), acks.taken, startSeq, from);
        if !ok {
          SentIsFailed(r.src, old(r.pos), acks.taken, startSeq, from, SendFailed);
          RefusedCause(env, asked, offered, r, acks, from);
          return Some(SendFailed);
        }
      }
      match status {
        case AtEof => fileEOF := true;
        case Broken =>
          SentIsFailed(r.src, r.pos, acks.taken, startSeq, from, ReadFailed);
          BrokenCause(env, asked, offered, r, acks, startSeq, from);
          return Some(ReadFailed);
        case More =>
      }
      return None;
    }

    /** Success: everything from the offset on was sent, acknowledged in order, and only then Done followed. */
    ghost predicate Finished(src: Bytes, startSeq: nat, from: nat, taken: seq<SeqNo>)
      reads this
    {
      var n := |sent| - 1;
      && n >= 0 && sent[n] == Done
      && SentChunks(src, startSeq, from, sent[..n])
      && taken == Range(startSeq, startSeq + n)
      && Payload(sent[..n]) == src[from..]
    }

    /**
     * The send loop after the header, starting at chunk startSeq. Success means: everything from the seek
     * offset was sent in consecutively numbered chunks of at most chunkSize bytes, each was acknowledged in
     * order, and only then Done followed. Any failure leaves a prefix of that behind and never Done, and has
     * a cause outside the sender: without one, the loop succeeds.
     */
    method RunFromReader(r: Reader, acks: AckChannel, env: Surroundings, startSeq: SeqNo) returns (err: Option<SendError>)
      requires r.Valid() && r.pos == 0 && |r.src| < I64_LIMIT
      requires SeekOffset(startSeq, chunkSize) >= 0 ==> startSeq + |r.src| < U64
      requires window >= 1 && chunkSize >= 1 && sent == [] && acks.taken == []
      modifies this, r, acks, env
      ensures err == Some(SeekFailed) <==> SeekFails(startSeq, chunkSize, |r.src|, r.seekable, r.breaksAt)
      ensures err == Some(SeekFailed) ==> sent == [] && acks.taken == []
      ensures err != Some(SeekFailed) ==>
                var from := SendFrom(startSeq, chunkSize, |r.src|);
                if err.None? then Finished(r.src, startSeq, from, acks.taken) && Calm(env, old(env.asked), old(env.offered))
                else
                  && Failed(r.src, startSeq, from, err.value)
                  && ((err == Some(SendFailed) && Unannounced(env, old(env.asked), old(env.offered), r, acks, startSeq, from))
                      || Cause(env, old(env.asked), old(env.offered), r, acks, from, err.value))
      ensures err.Some? && err.value.OutOfOrderAck? ==>
                && |acks.taken| > 0 && err.value.want == startSeq + |acks.taken| - 1
                && acks.taken[|acks.taken| - 1] == err.value.got != err.value.want
    {
      if startSeq > 0 {
        var ok := r.Seek(SeekOffset(startSeq, chunkSize));
        if !ok {
          return Some(SeekFailed);
        }
      }
      ghost var from := r.pos;
      base, nextSeq, fileEOF := startSeq, startSeq, false;
      assert Windowed(r, acks, startSeq, from);
      err := SendAll(r, acks, env, startSeq, from);
    }

    /** Everything was sent and acknowledged, but the channel refused TransferDone. */
    ghost predicate Unannounced(env: Surroundings, asked: nat, offered: nat, r: Reader, acks: AckChannel, startSeq: nat, from: nat)
      reads this, env, r, acks
    {
      && env.offered > offered && !env.takes(env.offered - 1) && |sent| == env.offered - 1 - offered
      && (forall i :: asked <= i < env.asked ==> env.chooses(i).Proceed?)
      && (forall i :: offered <= i < env.offered - 1 ==> env.takes(i))
      && from <= |r.src| && Payload(sent) == r.src[from..] && acks.taken == Range(startSeq, startSeq + |sent|)
    }

    /** The loop itself, and TransferDone behind it. */
    method SendAll(r: Reader, acks: AckChannel, env: Surroundings, ghost startSeq: nat, ghost from: nat)
      returns (err: Option<SendError>)
      requires Windowed(r, acks, startSeq, from) && window >= 1 && chunkSize >= 1
      requires startSeq + |r.src| < U64 && |sent| <= r.pos && sent == []
      modifies this`base, this`nextSeq, this`fileEOF, this`sent, r, acks, env
      ensures err.None? ==> Finished(r.src, startSeq, from, acks.taken) && Calm(env, old(env.asked), old(env.offered))
      ensures err.Some? ==> Failed(r.src, startSeq, from, err.value)
      ensures err.Some? ==>
                || (err == Some(SendFailed) && Unannounced(env, old(env.asked), old(env.offered), r, acks, startSeq, from))
                || Cause(env, old(env.asked), old(env.offered), r, acks, from, err.value)
      ensures err != Some(SeekFailed)
      ensures err.Some? && err.value.OutOfOrderAck? ==>
                && |acks.taken| > 0 && err.value.want == startSeq + |acks.taken| - 1
                && acks.taken[|acks.taken| - 1] == err.value.got != err.value.want
    {
      hide Cause, Failed, SentChunks, SeqNos, Payload, Range;
      while Looping(Now(r))
        invariant Windowed(r, acks, startSeq, from) && Calm(env, old(env.asked), old(env.offered))
        decreases |r.src| - r.pos, r.idle, if fileEOF then 0 else 1, nextSeq - base
      {
        if MustAwaitAck(Now(r), window) {
          err := AwaitAck(r, acks, env, startSeq, from, old(env.asked), old(env.offered));
          if err.Some? {
            return;
          }
        } else {
          err := SendNext(r, acks, env, startSeq, from, old(env.asked), old(env.offered));
          if err.Some? {
            return;
          }
        }
      }
      err := Announce(r, acks, env, startSeq, from, old(env.asked), old(env.offered));
    }

    /** TransferDone, once everything is acknowledged. */
    method Announce(r: Reader, acks: AckChannel, env: Surroundings, ghost startSeq: nat, ghost from: nat,
                    ghost asked: nat, ghost offered: nat) returns (err: Option<SendError>)
      requires Windowed(r, acks, startSeq, from) && Calm(env, asked, offered) && !Looping(Now(r))
      modifies this`sent, env
      ensures err.None? ==> Finished(r.src, startSeq, from, acks.taken) && Calm(env, asked, offered)
      ensures err.Some? ==>
                && err == Some(SendFailed) && Failed(r.src, startSeq, from, err.value)
                && Unannounced(env, asked, offered, r, acks, startSeq, from)
    {
      hide SeqNos, Payload, Range;
      WindowedSent(r, acks, startSeq, from);
      var ok := env.Offer();
      if !ok {
        return Some(SendFailed);
      }
      ghost var chunks := sent;
      sent := sent + [Done];
      assert sent[..|sent| - 1] == chunks;
      return None;
    }
  }
}
