/**
 * Counted downloads under interleaving. OpenDownload holds the lock while it reads the sidecar, opens the
 * ciphertext and rewrites the sidecar; Delete and CleanExpired take no lock, so a directory can be
 * removed, entry by entry, between any two of those steps.
 */
module Downloads {
  import opened Prelude
  import opened ScheduleStore

  datatype Sidecar = Missing | Truncated | Readable(left: int)

  /** One complete file: its directory, what is in it, its limit (0 is unlimited), and successful opens so far. */
  datatype Entry = Entry(dir: bool, sidecar: Sidecar, enc: bool, max: nat, opens: nat)

  /** The one download inside the critical section, with the count it has read. */
  datatype Holder = NoOne | HasRead(id: Id, left: int) | HasOpened(id: Id, left: int) | Rewriting(id: Id, left: int)

  datatype State = State(files: map<Id, Entry>, holder: Holder, doomed: set<Id>)

  datatype Event =
    | Publish(id: Id, max: nat)  // FinalizeUpload, under a fresh random ID
    | BeginOpen(id: Id)  // lock taken, sidecar read, not expired, not exhausted
    | OpenCiphertext
    | BeginCount  // the sidecar is truncated for rewriting; unlimited files skip it
    | EndCount
    | Doom(id: Id)  // Delete or CleanExpired decides to remove the directory
    | UnlinkEnc(id: Id)
    | UnlinkSidecar(id: Id)
    | RemoveDir(id: Id)

  predicate Possible(cap: int, s: State, e: Event) {
    match e
    case Publish(id, max) => id !in s.files && WithinCap(cap, max)
    case BeginOpen(id) =>
      s.holder.NoOne? && id in s.files && s.files[id].sidecar.Readable? && s.files[id].sidecar.left != 0
    case OpenCiphertext => s.holder.HasRead? && s.holder.id in s.files
    case BeginCount => s.holder.HasOpened? && s.holder.id in s.files
    case EndCount => s.holder.Rewriting? && s.holder.id in s.files
    case Doom(id) => id in s.files
    case UnlinkEnc(id) => id in s.doomed && id in s.files
    case UnlinkSidecar(id) => id in s.doomed && id in s.files
    case RemoveDir(id) => id in s.doomed && id in s.files && s.files[id].sidecar.Missing? && !s.files[id].enc
  }

  function Succeed(s: State, id: Id): State
    requires id in s.files
  {
    s.(files := s.files[id := s.files[id].(opens := s.files[id].opens + 1)], holder := NoOne)
  }

  function Do(cap: int, s: State, e: Event): State
    requires Possible(cap, s, e)
  {
    match e
    case Publish(id, max) =>
      s.(files := s.files[id := Entry(true, Readable(if max == 0 then -1 else max), true, max, 0)])
    case BeginOpen(id) => s.(holder := HasRead(id, s.files[id].sidecar.left))
    case OpenCiphertext =>
      s.(holder := if s.files[s.holder.id].enc then HasOpened(s.holder.id, s.holder.left) else NoOne)
    case BeginCount =>
      var id := s.holder.id;
      if s.holder.left < 0 then Succeed(s, id)
      else if !s.files[id].dir then s.(holder := NoOne)
      else s.(files := s.files[id := s.files[id].(sidecar := Truncated)], holder := Rewriting(id, s.holder.left))
    case EndCount =>
      var id := s.holder.id;
      var f := s.files[id];
      // an unlinked sidecar takes the write with it, and the download still succeeds
      var f' := if f.sidecar.Truncated? then f.(sidecar := Readable(s.holder.left - 1)) else f;
      Succeed(s.(files := s.files[id := f']), id)
    case Doom(id) => s.(doomed := s.doomed + {id})
    case UnlinkEnc(id) => s.(files := s.files[id := s.files[id].(enc := false)])
    case UnlinkSidecar(id) => s.(files := s.files[id := s.files[id].(sidecar := Missing)])
    case RemoveDir(id) => s.(files := s.files[id := s.files[id].(dir := false)])
  }

  /** What a count read earlier or found on disk says about the downloads so far. */
  predicate Conserved(f: Entry, left: int) {
    if f.max == 0 then left == -1 else left >= 0 && left + f.opens == f.max
  }

  ghost predicate Sound(cap: int, s: State) {
    && (forall id :: id in s.files ==>
          var f := s.files[id];
          && (f.sidecar.Readable? ==> Conserved(f, f.sidecar.left))
          && (f.sidecar.Truncated? ==> s.holder.Rewriting? && s.holder.id == id)
          && (f.max > 0 ==> f.opens <= f.max)
          && (cap > 0 ==> 1 <= f.max <= cap)
          && (!f.dir ==> f.sidecar.Missing? && !f.enc))
    && (!s.holder.NoOne? ==>
          && s.holder.id in s.files && s.holder.left != 0
          && Conserved(s.files[s.holder.id], s.holder.left))
    && (s.holder.Rewriting? ==> s.holder.left > 0 && !s.files[s.holder.id].sidecar.Readable?)
  }

  lemma ReadingConserves(cap: int, s: State, e: Event)
    requires Sound(cap, s) && Possible(cap, s, e) && (e.BeginOpen? || e.OpenCiphertext?)
    ensures Sound(cap, Do(cap, s, e))
  {
    hide Conserved;
  }

  lemma CountingConserves(cap: int, s: State, e: Event)
    requires Sound(cap, s) && Possible(cap, s, e) && (e.BeginCount? || e.EndCount?)
    ensures Sound(cap, Do(cap, s, e))
  {
  }

  lemma RemovalConserves(cap: int, s: State, e: Event)
    requires Sound(cap, s) && Possible(cap, s, e)
    requires e.Doom? || e.UnlinkEnc? || e.UnlinkSidecar? || e.RemoveDir?
    ensures Sound(cap, Do(cap, s, e))
  {
  }

  lemma PublishConserves(cap: int, s: State, e: Event)
    requires Sound(cap, s) && Possible(cap, s, e) && e.Publish?
    ensures Sound(cap, Do(cap, s, e))
  {
  }

  /** Every interleaved step conserves downloads left plus successful opens. */
  lemma StepConserves(cap: int, s: State, e: Event)
    requires Sound(cap, s) && Possible(cap, s, e)
    ensures Sound(cap, Do(cap, s, e))
  {
    hide Sound, Do, Possible;
    match e {
      case Publish(_, _) => PublishConserves(cap, s, e);
      case BeginOpen(_) => ReadingConserves(cap, s, e);
      case OpenCiphertext => ReadingConserves(cap, s, e);
      case BeginCount => CountingConserves(cap, s, e);
      case EndCount => CountingConserves(cap, s, e);
      case _ => RemovalConserves(cap, s, e);
    }
  }

  /** Removal is final: a file once gone from its directory, or a directory once gone, never comes back. */
  lemma RemovedStaysRemoved(cap: int, s: State, e: Event, id: Id)
    requires Sound(cap, s) && Possible(cap, s, e) && id in s.files
    ensures var f, f' := s.files[id], Do(cap, s, e).files[id];
            && (!f.enc ==> !f'.enc)
            && (!f.dir ==> !f'.dir && f'.sidecar.Missing? && !f'.enc)
            && f'.max == f.max
            && f.opens <= f'.opens <= f.opens + 1
            && (f'.opens > f.opens ==> s.holder.id == id && !s.holder.NoOne? && !s.holder.HasRead?)
  {
  }

  predicate Runs(cap: int, s: State, es: seq<Event>)
    decreases |es|
  {
    es == [] || (Possible(cap, s, es[0]) && Runs(cap, Do(cap, s, es[0]), es[1..]))
  }

  function Exec(cap: int, s: State, es: seq<Event>): State
    requires Runs(cap, s, es)
    decreases |es|
  {
    if es == [] then s else Exec(cap, Do(cap, s, es[0]), es[1..])
  }

  const EMPTY := State(map[], NoOne, {})

  lemma {:induction false} RunConserves(cap: int, s: State, es: seq<Event>)
    requires Sound(cap, s) && Runs(cap, s, es)
    ensures Sound(cap, Exec(cap, s, es))
    decreases |es|
  {
    hide Do, Possible;
    if es != [] {
      StepConserves(cap, s, es[0]);
      RunConserves(cap, Do(cap, s, es[0]), es[1..]);
    }
  }

  /**
   * Conservation over whole runs: whatever deletions and clean-ups interleave with downloads, a readable
   * sidecar of a limited file satisfies left + successes = limit with left >= 0, an unlimited one stays at
   * -1, and no file is ever downloaded more often than its limit or a positive server cap allows.
   */
  lemma DownloadsConserved(cap: int, es: seq<Event>, id: Id)
    requires Runs(cap, EMPTY, es) && id in Exec(cap, EMPTY, es).files
    ensures var f := Exec(cap, EMPTY, es).files[id];
            && (f.sidecar.Readable? && f.max > 0 ==> f.sidecar.left >= 0 && f.sidecar.left + f.opens == f.max)
            && (f.sidecar.Readable? && f.max == 0 ==> f.sidecar.left == -1)
            && (f.max > 0 ==> f.opens <= f.max)
            && (cap > 0 ==> f.opens <= cap)
  {
    RunConserves(cap, EMPTY, es);
  }

  lemma {:induction false} GoneForGood(cap: int, s: State, es: seq<Event>, id: Id)
    requires Sound(cap, s) && Runs(cap, s, es) && id in s.files && !s.files[id].dir
    ensures id in Exec(cap, s, es).files
    ensures var f := Exec(cap, s, es).files[id]; !f.dir && f.sidecar.Missing? && !f.enc
    decreases |es|
  {
    hide Possible;
    if es != [] {
      StepConserves(cap, s, es[0]);
      RemovedStaysRemoved(cap, s, es[0], id);
      GoneForGood(cap, Do(cap, s, es[0]), es[1..], id);
    }
  }

  /** A ciphertext once unlinked never comes back, whatever follows. */
  lemma {:induction false} CiphertextGoneForGood(cap: int, s: State, es: seq<Event>, id: Id)
    requires Sound(cap, s) && Runs(cap, s, es) && id in s.files && !s.files[id].enc
    ensures id in Exec(cap, s, es).files && !Exec(cap, s, es).files[id].enc
    decreases |es|
  {
    hide Possible;
    if es != [] {
      StepConserves(cap, s, es[0]);
      RemovedStaysRemoved(cap, s, es[0], id);
      CiphertextGoneForGood(cap, Do(cap, s, es[0]), es[1..], id);
    }
  }

  /**
   * An unlinked sidecar comes back exactly when a download of a limited file that has already opened the
   * ciphertext rewrites it while the directory is still there.
   */
  lemma SidecarReturnsIff(cap: int, s: State, e: Event, id: Id)
    requires Sound(cap, s) && Possible(cap, s, e) && id in s.files && s.files[id].sidecar.Missing?
    ensures !Do(cap, s, e).files[id].sidecar.Missing? <==>
              e.BeginCount? && s.holder.id == id && s.holder.left > 0 && s.files[id].dir
  {
  }

  /** The run that shows it: a limited file is opened, all but its directory removed, and the download counted. */
  function ReturningRun(id: Id, max: nat): seq<Event> {
    [Publish(id, max), BeginOpen(id), OpenCiphertext, Doom(id)] + [UnlinkEnc(id), UnlinkSidecar(id), BeginCount, EndCount]
  }

  lemma SidecarReturns(id: Id, max: nat)
    requires max > 0
    ensures Runs(0, EMPTY, ReturningRun(id, max))
    ensures Exec(0, EMPTY, ReturningRun(id, max)).files == map[id := Entry(true, Readable(max - 1), false, max, 1)]
  {
    hide Runs, Exec;
    var first := [Publish(id, max), BeginOpen(id), OpenCiphertext, Doom(id)];
    var second := [UnlinkEnc(id), UnlinkSidecar(id), BeginCount, EndCount];
    OpensAndDooms(id, max);
    UnlinksAndCounts(id, max);
    RunsTogether(0, EMPTY, first, second);
  }

  function Doomed(id: Id, max: nat): State {
    State(map[id := Entry(true, Readable(max), true, max, 0)], HasOpened(id, max), {id})
  }

  lemma OpensAndDooms(id: Id, max: nat)
    requires max > 0
    ensures var es := [Publish(id, max), BeginOpen(id), OpenCiphertext, Doom(id)];
            Runs(0, EMPTY, es) && Exec(0, EMPTY, es) == Doomed(id, max)
  {
    var e1, e2, e3, e4 := Publish(id, max), BeginOpen(id), OpenCiphertext, Doom(id);
    var s1 := Do(0, EMPTY, e1);
    var s2 := Do(0, s1, e2);
    var s3 := Do(0, s2, e3);
    Unfold(0, EMPTY, e1, [e2, e3, e4]);
    Unfold(0, s1, e2, [e3, e4]);
    Unfold(0, s2, e3, [e4]);
    Unfold(0, s3, e4, []);
  }

  lemma UnlinksAndCounts(id: Id, max: nat)
    requires max > 0
    ensures var es := [UnlinkEnc(id), UnlinkSidecar(id), BeginCount, EndCount];
            Runs(0, Doomed(id, max), es)
            && Exec(0, Doomed(id, max), es).files == map[id := Entry(true, Readable(max - 1), false, max, 1)]
  {
    var s := Doomed(id, max);
    var e1, e2, e3, e4 := UnlinkEnc(id), UnlinkSidecar(id), BeginCount, EndCount;
    var s1 := Do(0, s, e1);
    var s2 := Do(0, s1, e2);
    var s3 := Do(0, s2, e3);
    Unfold(0, s, e1, [e2, e3, e4]);
    Unfold(0, s1, e2, [e3, e4]);
    Unfold(0, s2, e3, [e4]);
    Unfold(0, s3, e4, []);
  }

  lemma {:induction false} RunsTogether(cap: int, s: State, es: seq<Event>, fs: seq<Event>)
    requires Runs(cap, s, es) && Runs(cap, Exec(cap, s, es), fs)
    ensures Runs(cap, s, es + fs) && Exec(cap, s, es + fs) == Exec(cap, Exec(cap, s, es), fs)
    decreases |es|
  {
    hide Do, Possible;
    if es == [] {
      assert es + fs == fs;
    } else {
      assert (es + fs)[1..] == es[1..] + fs;
      RunsTogether(cap, Do(cap, s, es[0]), es[1..], fs);
    }
  }

  /** Without interference the four steps are exactly the atomic OpenDownload of the store. */
  lemma UndisturbedOpen(cap: int, s: State, id: Id, f: Stored)
    requires Sound(cap, s) && s.holder.NoOne? && id in s.files && s.files[id].dir && s.files[id].enc
    requires s.files[id].sidecar == Readable(f.meta.downloadsLeft) && f.meta.downloadsLeft != 0
    ensures var es := if f.meta.downloadsLeft > 0 then [BeginOpen(id), OpenCiphertext, BeginCount, EndCount]
                      else [BeginOpen(id), OpenCiphertext, BeginCount];
            Runs(cap, s, es) &&
            Exec(cap, s, es) == s.(files := s.files[id := s.files[id].(
              sidecar := Readable(Counted(f).meta.downloadsLeft), opens := s.files[id].opens + 1)])
  {
    var e1, e2, e3, e4 := BeginOpen(id), OpenCiphertext, BeginCount, EndCount;
    var s1 := Do(cap, s, e1);
    var s2 := Do(cap, s1, e2);
    var s3 := Do(cap, s2, e3);
    if f.meta.downloadsLeft > 0 {
      var s4 := Do(cap, s3, e4);
      Unfold(cap, s, e1, [e2, e3, e4]);
      Unfold(cap, s1, e2, [e3, e4]);
      Unfold(cap, s2, e3, [e4]);
      Unfold(cap, s3, e4, []);
    } else {
      Unfold(cap, s, e1, [e2, e3]);
      Unfold(cap, s1, e2, [e3]);
      Unfold(cap, s2, e3, []);
    }
  }

  // ---------------------------------------------------------------- why Publish respects the cap

  /** Every change the store makes keeps the limits; a new upload does because the negotiation put it within the cap. */
  lemma StoreKeepsLimits(cap: int, pending: map<Id, Pending>, complete: map<Id, Stored>, id: Id, fileId: Id,
                         p: Pending, data: Bytes, nameEnc: Bytes, nameNonce: Bytes, sha: Bytes, key: Bytes)
    requires Limits(cap, pending, complete)
    ensures WithinCap(cap, p.meta.maxDownloads) ==> Limits(cap, pending[id := p], complete)
    ensures id in pending ==> Limits(cap, pending[id := Appended(pending[id], data)], complete)
    ensures id in pending ==>
              Limits(cap, pending - {id}, complete[fileId := Finished(pending[id], nameEnc, nameNonce, sha, key)])
    ensures fileId in complete ==> Limits(cap, pending, complete[fileId := Counted(complete[fileId])])
    ensures Limits(cap, pending - {id}, complete) && Limits(cap, pending, complete - {fileId})
  {
  }

  /** Finalising an upload is the Publish step, with its sidecar as written; the cap guard of Publish always holds. */
  lemma FinalizeIsPublish(cap: int, s: State, pending: map<Id, Pending>, complete: map<Id, Stored>, id: Id, fileId: Id,
                          nameEnc: Bytes, nameNonce: Bytes, sha: Bytes, key: Bytes)
    requires Limits(cap, pending, complete) && id in pending && fileId !in s.files
    ensures var f := Finished(pending[id], nameEnc, nameNonce, sha, key);
            var e := Publish(fileId, f.meta.maxDownloads);
            && Possible(cap, s, e)
            && Do(cap, s, e).files == s.files[fileId := Entry(true, Readable(f.meta.downloadsLeft), true, f.meta.maxDownloads, 0)]
  {
  }

  lemma Unfold(cap: int, s: State, e: Event, rest: seq<Event>)
    requires Possible(cap, s, e)
    ensures Runs(cap, s, [e] + rest) == Runs(cap, Do(cap, s, e), rest)
    ensures Runs(cap, s, [e] + rest) ==> Exec(cap, s, [e] + rest) == Exec(cap, Do(cap, s, e), rest)
  {
    assert ([e] + rest)[1..] == rest;
  }
}
