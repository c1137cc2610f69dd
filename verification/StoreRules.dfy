/** What the store's small decisions add up to: ordered uploads, counted downloads, clean-up. */
module StoreRules {
  import opened Prelude
  import opened ScheduleStore

  // ---------------------------------------------------------------- identifiers

  const HEX := "0123456789abcdef"

  predicate HexDigit(b: Byte) {
    exists j :: 0 <= j < |HEX| && HEX[j] as int == b
  }

  lemma HexDigitIff(b: Byte)
    ensures HexDigit(b) <==> 0x30 <= b <= 0x39 || 0x61 <= b <= 0x66
  {
    if 0x30 <= b <= 0x39 {
      assert HEX[b - 0x30] as int == b;
    } else if 0x61 <= b <= 0x66 {
      assert HEX[b - 0x57] as int == b;
    }
  }

  /** Identifiers are 32 lower-case hexadecimal digits. */
  lemma ValidIdIff(id: Id)
    ensures ValidId(id) <==> |id| == 32 && forall i :: 0 <= i < |id| ==> HexDigit(id[i])
  {
    hide HexDigit;
    forall i | 0 <= i < |id| {
      HexDigitIff(id[i]);
    }
  }

  // ---------------------------------------------------------------- appending in order

  datatype Attempt = Attempt(id: Id, index: int, data: Bytes)

  function TryAppend(pending: map<Id, Pending>, at: Attempt): map<Id, Pending> {
    if AppendError(pending, at.id, at.index, at.data).None? then pending[at.id := Appended(pending[at.id], at.data)]
    else pending
  }

  function TryAll(pending: map<Id, Pending>, ats: seq<Attempt>): map<Id, Pending>
    decreases |ats|
  {
    if ats == [] then pending else TryAll(TryAppend(pending, ats[0]), ats[1..])
  }

  /** The pieces an upload takes from a list of attempts when its next piece is number k: in order, none twice, none too large. */
  function TakenFrom(id: Id, chunkSize: int, k: nat, ats: seq<Attempt>): seq<Bytes>
    decreases |ats|
  {
    if ats == [] then []
    else if ats[0].id == id && ats[0].index == k && |ats[0].data| <= 12 + chunkSize + 16 then
      [ats[0].data] + TakenFrom(id, chunkSize, k + 1, ats[1..])
    else TakenFrom(id, chunkSize, k, ats[1..])
  }

  /** Whatever is attempted, for whichever uploads, a pending upload ends up with exactly the pieces that came in order. */
  lemma {:induction false} AppendsInOrder(pending: map<Id, Pending>, ats: seq<Attempt>, id: Id)
    requires ValidId(id) && id in pending
    ensures var p := pending[id];
            var taken := TakenFrom(id, p.meta.chunkSize, p.meta.chunksWritten, ats);
            var all := TryAll(pending, ats);
            && all.Keys == pending.Keys
            && all[id] == Pending(p.meta.(chunksWritten := p.meta.chunksWritten + |taken|), p.enc + Flatten(taken))
    decreases |ats|
  {
    hide ValidId;
    if ats != [] {
      var at, next := ats[0], TryAppend(pending, ats[0]);
      var p := pending[id];
      AppendsInOrder(next, ats[1..], id);
      if next[id] != p {
        var rest := TakenFrom(id, p.meta.chunkSize, p.meta.chunksWritten + 1, ats[1..]);
        assert TakenFrom(id, p.meta.chunkSize, p.meta.chunksWritten, ats) == [at.data] + rest;
        assert p.enc + at.data + Flatten(rest) == p.enc + (at.data + Flatten(rest));
      }
    } else {
      assert pending[id].enc + [] == pending[id].enc;
    }
  }

  // ---------------------------------------------------------------- counted downloads

  /** A file after n attempts to open it at one time. */
  function AfterOpens(complete: map<Id, Stored>, id: Id, now: int, n: nat): map<Id, Stored>
    requires id in complete
    ensures id in AfterOpens(complete, id, now, n)
  {
    if n == 0 then complete
    else
      var before := AfterOpens(complete, id, now, n - 1);
      if OpenError(before, id, now).None? then before[id := Counted(before[id])] else before
  }

  /**
   * A file that has not expired opens as often as downloads are left, then refuses for its limit; an
   * unlimited file always opens, and after its expiry no file does.
   */
  lemma {:induction false} OpensExactlyAsOften(complete: map<Id, Stored>, id: Id, now: int, n: nat)
    requires ValidId(id) && id in complete && complete[id].meta.downloadsLeft >= -1
    ensures var m := complete[id].meta;
            var e := OpenError(AfterOpens(complete, id, now, n), id, now);
            && AfterOpens(complete, id, now, n)[id].enc == complete[id].enc
            && AfterOpens(complete, id, now, n)[id].meta.expiresAt == m.expiresAt
            && e == (if now > m.expiresAt then Some(Expired)
                     else if m.downloadsLeft == -1 || n < m.downloadsLeft then None
                     else Some(LimitReached))
            && (now <= m.expiresAt ==>
                  AfterOpens(complete, id, now, n)[id].meta.downloadsLeft
                  == if m.downloadsLeft == -1 then -1 else if n < m.downloadsLeft then m.downloadsLeft - n else 0)
  {
    hide ValidId;
    if n > 0 {
      OpensExactlyAsOften(complete, id, now, n - 1);
    }
  }

  /** A published file can be opened as often as its upload allows: max times, or without limit for 0. */
  lemma PublishedOpens(p: Pending, nameEnc: Bytes, nameNonce: Bytes, sha: Bytes, key: Bytes, id: Id, now: int, n: nat)
    requires ValidId(id)
    ensures var f := Finished(p, nameEnc, nameNonce, sha, key);
            OpenError(AfterOpens(map[id := f], id, now, n), id, now).None? <==>
              now <= p.meta.expiresAt && (p.meta.maxDownloads == 0 || n < p.meta.maxDownloads)
  {
    hide ValidId, AfterOpens;
    OpensExactlyAsOften(map[id := Finished(p, nameEnc, nameNonce, sha, key)], id, now, n);
  }

  // ---------------------------------------------------------------- clean-up

  /** After clean-up a file under a valid identifier is there if and only if it opened before, and then it still opens. */
  lemma CleanedFilesOpen(complete: map<Id, Stored>, now: int, id: Id)
    requires ValidId(id) && id in complete
    ensures var left := map i | i in complete && !(ValidId(i) && Removable(complete[i], now)) :: complete[i];
            && (id in left <==> OpenError(complete, id, now).None?)
            && (id in left ==> left[id] == complete[id] && OpenError(left, id, now).None?)
  {
    hide ValidId;
  }

  /** An upload is kept for exactly a day. */
  lemma UploadsKeptForADay(pending: map<Id, Pending>, now: int, id: Id)
    requires ValidId(id) && id in pending
    ensures var left := map i | i in pending && !(ValidId(i) && Stale(pending[i], now)) :: pending[i];
            id in left <==> now - pending[id].meta.createdAt <= 86_400_000_000_000
  {
    hide ValidId;
  }
}
