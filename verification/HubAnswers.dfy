/** What every request is answered with: which connection hears what, and nobody else anything. */
module HubAnswers {
  import opened Prelude
  import opened Slots
  import opened Hub
  import opened HubProofs
  import opened HubMembership
  import opened HubNotices

  /** Only x hears anything, namely these messages. */
  ghost predicate OnlyHears(h: HubState, h': HubState, x: ConnId, news: seq<Msg>) {
    Heard(h, h', x, news) && forall y :: y != x ==> Heard(h, h', y, [])
  }

  // ---------------------------------------------------------------- queues

  /** A frame for a connection with 16 frames still queued is dropped; with fewer it is queued last. */
  lemma QueueHoldsSixteen(h: HubState, c: ConnId, m: Msg)
    requires c in h.conns && h.conns[c].drained <= |h.conns[c].sent|
    ensures var queued := |h.conns[c].sent| - h.conns[c].drained;
            var h' := Send(h, c, m);
            if queued < 16 then h'.dropped == h.dropped && h'.conns == h.conns[c := h.conns[c].(sent := h.conns[c].sent + [m])]
            else h'.dropped && h'.conns == h.conns
  {
  }

  lemma SendIsHeard(h: HubState, c: ConnId, m: Msg)
    requires !Send(h, c, m).dropped
    ensures OnlyHears(h, Send(h, c, m), c, [m])
  {
    SendTellsOne(h, c, m);
  }

  // ---------------------------------------------------------------- relay

  /** Where an untargeted message goes: to the initiator, or from the initiator to the first peer. */
  function Recipient(s: SlotValue, c: ConnId): Option<ConnId> {
    if c != s.initiator then Some(s.initiator) else if s.peers == [] then None else Some(s.peers[0])
  }

  /** A message that finds its recipient connected is heard there once, unchanged, and nowhere else. */
  lemma RelayDelivers(h: HubState, c: ConnId, e: Envelope, id: SlotId, x: ConnId)
    requires c in h.conns && h.conns[c].slotId == Some(id) && id in h.slots
    requires if e.Targeted? then e.target == Some(x) && IsMember(h.slots[id], x) else Recipient(h.slots[id], c) == Some(x)
    requires x in h.conns && !Relay(h, c, e).dropped
    ensures OnlyHears(h, Relay(h, c, e), x, [Forwarded(e)])
  {
    hide Send, OnlyHears;
    assert Relay(h, c, e) == Send(h, x, Forwarded(e));
    SendIsHeard(h, x, Forwarded(e));
  }

  /** In all other cases nobody hears the message; the sender is told why, except for a target outside its slot or gone. */
  lemma RelayRefuses(h: HubState, c: ConnId, e: Envelope)
    requires c in h.conns && !Relay(h, c, e).dropped
    ensures h.conns[c].slotId.None? ==> OnlyHears(h, Relay(h, c, e), c, [Error(NotInSlot)])
    ensures h.conns[c].slotId.Some? && h.conns[c].slotId.value !in h.slots ==>
              OnlyHears(h, Relay(h, c, e), c, [Error(SlotNotFound)])
    ensures h.conns[c].slotId.Some? && h.conns[c].slotId.value in h.slots ==>
              var s := h.slots[h.conns[c].slotId.value];
              && (e.Targeted? && e.target.None? ==> OnlyHears(h, Relay(h, c, e), c, [Error(BadPayload)]))
              && (e.Targeted? && e.target.Some? && !IsMember(s, e.target.value) ==> Relay(h, c, e) == h)
              && (e.Targeted? && e.target.Some? && e.target.value !in h.conns ==> Relay(h, c, e) == h)
              && (e.Direct? && (Recipient(s, c).None? || Recipient(s, c).value !in h.conns) ==>
                    OnlyHears(h, Relay(h, c, e), c, [Error(PeerGone)]))
  {
    hide OnlyHears;
    if !Send(h, c, Error(NotInSlot)).dropped { SendIsHeard(h, c, Error(NotInSlot)); }
    if !Send(h, c, Error(SlotNotFound)).dropped { SendIsHeard(h, c, Error(SlotNotFound)); }
    if !Send(h, c, Error(BadPayload)).dropped { SendIsHeard(h, c, Error(BadPayload)); }
    if !Send(h, c, Error(PeerGone)).dropped { SendIsHeard(h, c, Error(PeerGone)); }
  }

  // ---------------------------------------------------------------- create

  /** The code a create gets is the first drawn one that is free; it fails only if all drawn ones are taken. */
  lemma {:induction false} FirstFreeIff(codes: map<Code, SlotId>, attempts: seq<(SlotId, Code)>)
    ensures FirstFree(codes, attempts) == None <==> forall i :: 0 <= i < |attempts| ==> attempts[i].1 in codes
    ensures FirstFree(codes, attempts).Some? ==>
              exists i :: 0 <= i < |attempts| && FirstFree(codes, attempts).value == attempts[i] && attempts[i].1 !in codes
                && forall j :: 0 <= j < i ==> attempts[j].1 in codes
  {
    if attempts != [] && attempts[0].1 in codes {
      var rest := attempts[1..];
      FirstFreeIff(codes, rest);
      if FirstFree(codes, rest).Some? {
        var i :| 0 <= i < |rest| && FirstFree(codes, rest).value == rest[i] && rest[i].1 !in codes
          && forall j :: 0 <= j < i ==> rest[j].1 in codes;
        assert attempts[i + 1] == rest[i];
        assert forall j :: 0 < j < i + 1 ==> attempts[j] == rest[j - 1];
      } else {
        assert forall j :: 0 < j < |attempts| ==> attempts[j] == rest[j - 1];
      }
    }
  }

  /** A create is answered with its slot, code and limit, or with the reason it failed. */
  lemma CreateAnswered(h: HubState, c: ConnId, req: CreateRequest, attempts: seq<(SlotId, Code)>, now: int)
    requires c in h.conns && !Create(h, c, req, attempts, now).dropped
    ensures var h' := Create(h, c, req, attempts, now);
            if req.Malformed? then OnlyHears(h, h', c, [Error(BadPayload)])
            else if !req.versionOk then OnlyHears(h, h', c, [Error(VersionMismatch)])
            else if FirstFree(h.codes, attempts).None? then OnlyHears(h, h', c, [Error(Internal)])
            else var (id, code) := FirstFree(h.codes, attempts).value;
              && id in h'.slots && h'.slots[id].code == code && h'.slots[id].initiator == c && h'.conns[c].slotId == Some(id)
              && OnlyHears(h, h', c, [SlotCreated(id, code, h'.slots[id].maxPeers)])
  {
    hide FirstFree, OnlyHears, Send;
    if req.Malformed? {
      SendIsHeard(h, c, Error(BadPayload));
    } else if !req.versionOk {
      SendIsHeard(h, c, Error(VersionMismatch));
    } else if FirstFree(h.codes, attempts).None? {
      SendIsHeard(h, c, Error(Internal));
    } else {
      var (id, code) := FirstFree(h.codes, attempts).value;
      var s := Fresh(id, code, c, req.maxPeers, now);
      CreateIsAdd(h, c, req, attempts, now);
      SendIsHeard(Added(h, c, s), c, SlotCreated(id, code, s.maxPeers));
      SendIsQuiet(Added(h, c, s), c, SlotCreated(id, code, s.maxPeers));
      SameSentThen(h, Added(h, c, s), Create(h, c, req, attempts, now), c, [SlotCreated(id, code, s.maxPeers)]);
    }
  }

  lemma SameSentThen(h: HubState, h1: HubState, h': HubState, c: ConnId, news: seq<Msg>)
    requires h1.conns.Keys == h.conns.Keys && forall x :: x in h.conns ==> h1.conns[x].sent == h.conns[x].sent
    requires OnlyHears(h1, h', c, news)
    ensures OnlyHears(h, h', c, news)
  {
    assert forall y :: y != c && Heard(h1, h', y, []) ==> Heard(h, h', y, []);
  }

  // ---------------------------------------------------------------- join

  /** A code that leads nowhere is counted; from the fifth on the sender is also told to stop. */
  lemma BadCodeAnswered(h: HubState, c: ConnId, req: JoinRequest, now: int)
    requires c in h.conns && req.JoinWith? && req.versionOk && !Join(h, c, req, now).dropped
    requires !req.codeWellFormed || req.code !in h.codes || h.codes[req.code] !in h.slots
    ensures var h' := Join(h, c, req, now);
            var e := Error(if req.codeWellFormed then SlotNotFound else InvalidCode);
            && h'.slots == h.slots && h'.codes == h.codes
            && c in h'.conns && h'.conns[c].failedJoins == h.conns[c].failedJoins + 1
            && OnlyHears(h, h', c, if h.conns[c].failedJoins + 1 >= 5 then [e, Error(TooManyAttempts)] else [e])
  {
    hide OnlyHears;
    FailJoinAnswered(h, c, if req.codeWellFormed then SlotNotFound else InvalidCode);
  }

  lemma FailJoinAnswered(h: HubState, c: ConnId, e: ErrorCode)
    requires c in h.conns && !FailJoin(h, c, e).dropped
    ensures var h' := FailJoin(h, c, e);
            && h'.slots == h.slots && h'.codes == h.codes
            && c in h'.conns && h'.conns[c].failedJoins == h.conns[c].failedJoins + 1
            && OnlyHears(h, h', c, if h.conns[c].failedJoins + 1 >= 5 then [Error(e), Error(TooManyAttempts)] else [Error(e)])
  {
    assert [Error(e)] + [Error(TooManyAttempts)] == [Error(e), Error(TooManyAttempts)];
  }

  /** The other refusals: each has its own error, and only an expired slot goes away. */
  lemma JoinRefused(h: HubState, c: ConnId, req: JoinRequest, now: int)
    requires Safe(h) && c in h.conns && !Join(h, c, req, now).dropped
    ensures var h' := Join(h, c, req, now);
            && (req.MalformedJoin? ==> h'.slots == h.slots && OnlyHears(h, h', c, [Error(BadPayload)]))
            && (req.JoinWith? && !req.versionOk ==> h'.slots == h.slots && OnlyHears(h, h', c, [Error(VersionMismatch)]))
            && (req.JoinWith? && req.versionOk && req.codeWellFormed && req.code in h.codes ==>
                  var id := h.codes[req.code];
                  && id in h.slots
                  && (now > h.slots[id].expiresAt ==>
                        h'.slots == h.slots - {id} && req.code !in h'.codes && OnlyHears(h, h', c, [Error(SlotExpired)]))
                  && (now <= h.slots[id].expiresAt && !CanJoin(h.slots[id]) ==>
                        h'.slots == h.slots
                        && OnlyHears(h, h', c, [Error(if h.slots[id].state.Closed? then IsClosed else IsFull)])))
  {
    hide OnlyHears, Send, Admit, FailJoin, SlotOk;
    var h' := Join(h, c, req, now);
    if req.MalformedJoin? {
      RefusalHeard(h, h, c, BadPayload);
    } else if !req.versionOk {
      RefusalHeard(h, h, c, VersionMismatch);
    } else if req.codeWellFormed && req.code in h.codes {
      SafeIndex(h, req.code);
      var s := h.slots[h.codes[req.code]];
      if now > s.expiresAt {
        RefusalHeard(h, StoreDelete(h, s.id), c, SlotExpired);
      } else if !CanJoin(s) {
        RefusalHeard(h, h, c, if s.state.Closed? then IsClosed else IsFull);
      }
    }
  }

  lemma RefusalHeard(h: HubState, h1: HubState, c: ConnId, e: ErrorCode)
    requires h1.conns == h.conns && !Send(h1, c, Error(e)).dropped
    ensures OnlyHears(h, Send(h1, c, Error(e)), c, [Error(e)])
    ensures Send(h1, c, Error(e)).slots == h1.slots && Send(h1, c, Error(e)).codes == h1.codes
  {
    hide OnlyHears;
    SendIsHeard(h1, c, Error(e));
    SameSentThen(h, h1, Send(h1, c, Error(e)), c, [Error(e)]);
    SendIsQuiet(h1, c, Error(e));
  }

  /** A new slot is there to be joined for ten minutes, and no longer. */
  lemma JoinableForTenMinutes(h: HubState, c: ConnId, code: Code, asked: int, created: int, now: int)
    requires code in h.codes && h.codes[code] in h.slots
    requires h.slots[h.codes[code]] == Fresh(h.codes[code], code, h.slots[h.codes[code]].initiator, asked, created)
    ensures Succeeds(h, JoinMsg(c, JoinWith(true, code, true), now)) <==> now <= created + 600
  {
  }

  // ---------------------------------------------------------------- everything else

  lemma OthersAnswered(h: HubState, c: ConnId)
    requires c in h.conns
    ensures Possible(h, UnknownMsg(c)) && Possible(h, PongMsg(c))
    ensures !Step(h, UnknownMsg(c)).dropped ==> OnlyHears(h, Step(h, UnknownMsg(c)), c, [Error(UnknownType)])
    ensures Step(h, PongMsg(c)) == h
  {
    hide OnlyHears;
    if !Send(h, c, Error(UnknownType)).dropped {
      SendIsHeard(h, c, Error(UnknownType));
    }
  }
}
