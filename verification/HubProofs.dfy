/** What the hub guarantees in every reachable state. */
module HubProofs {
  import opened Prelude
  import opened Slots
  import opened Hub

  // ---------------------------------------------------------------- sending touches queues only

  ghost predicate OnlyQueues(h: HubState, h': HubState) {
    && h'.slots == h.slots && h'.codes == h.codes
    && h'.conns.Keys == h.conns.Keys
    && (forall x :: x in h.conns ==> h'.conns[x].slotId == h.conns[x].slotId)
    && (h.dropped ==> h'.dropped)
  }

  /** Connections other than those in xs are untouched. */
  ghost predicate OthersUntouched(h: HubState, h': HubState, xs: set<ConnId>) {
    forall x :: x in h.conns && x in h'.conns && x !in xs ==> h'.conns[x] == h.conns[x]
  }

  lemma SendIsQuiet(h: HubState, c: ConnId, m: Msg)
    ensures var h' := Send(h, c, m);
            && OnlyQueues(h, h') && OthersUntouched(h, h', {c})
            && (c in h.conns && !h'.dropped ==> h'.conns[c].sent == h.conns[c].sent + [m])
  {
  }

  lemma QuietThen(h: HubState, h1: HubState, h2: HubState, xs: set<ConnId>, ys: set<ConnId>)
    requires OnlyQueues(h, h1) && OthersUntouched(h, h1, xs)
    requires OnlyQueues(h1, h2) && OthersUntouched(h1, h2, ys)
    ensures OnlyQueues(h, h2) && OthersUntouched(h, h2, xs + ys)
  {
  }

  /** The last frame every addressee has been sent. */
  ghost predicate LastSent(h: HubState, ids: seq<ConnId>, m: Msg) {
    forall x :: x in ids && x in h.conns ==> h.conns[x].sent != [] && h.conns[x].sent[|h.conns[x].sent| - 1] == m
  }

  lemma LastSentSnoc(h: HubState, front: seq<ConnId>, x: ConnId, m: Msg)
    requires LastSent(h, front, m) && !Send(h, x, m).dropped
    ensures LastSent(Send(h, x, m), front + [x], m)
  {
  }

  lemma {:induction false} SendAllIsQuiet(h: HubState, ids: seq<ConnId>, m: Msg)
    ensures var h' := SendAll(h, ids, m);
            && OnlyQueues(h, h') && OthersUntouched(h, h', set x | x in ids)
            && (!h'.dropped ==> LastSent(h', ids, m))
    decreases |ids|
  {
    hide Send, OthersUntouched, LastSent;
    if ids == [] {
      assert OthersUntouched(h, h, set x | x in ids) && LastSent(h, ids, m) by { NothingSent(h, m); }
    } else {
      var front, last := ids[..|ids| - 1], ids[|ids| - 1];
      var h1 := SendAll(h, front, m);
      SendAllIsQuiet(h, front, m);
      SendIsQuiet(h1, last, m);
      QuietThen(h, h1, Send(h1, last, m), set x | x in front, {last});
      assert ids == front + [last];
      assert (set x | x in ids) == (set x | x in front) + {last};
      if !Send(h1, last, m).dropped {
        LastSentSnoc(h1, front, last, m);
      }
    }
  }

  lemma NothingSent(h: HubState, m: Msg)
    ensures OthersUntouched(h, h, set x | x in []) && LastSent(h, [], m)
  {
  }

  // ---------------------------------------------------------------- safety for arbitrary clients

  /** A stored slot: bounded, never closed, full exactly when it has been full, waiting exactly when empty. */
  predicate SlotOk(s: SlotValue) {
    && 2 <= s.maxPeers <= MAX_ALLOWED_PEERS
    && ConnectedCount(s) <= s.maxPeers
    && !s.state.Closed?
    && (s.state.Full? <==> s.everFull)
    && (!s.everFull ==> (s.state.Waiting? <==> s.peers == []))
  }

  /** The code index and the slots name each other. */
  predicate IndexOk(slots: map<SlotId, SlotValue>, codes: map<Code, SlotId>) {
    && (forall id :: id in slots ==> slots[id].id == id && slots[id].code in codes && codes[slots[id].code] == id)
    && (forall code :: code in codes ==> codes[code] in slots && slots[codes[code]].code == code)
  }

  predicate Safe(h: HubState) {
    IndexOk(h.slots, h.codes) && forall id :: id in h.slots ==> SlotOk(h.slots[id])
  }

  lemma DeleteKeepsSafe(h: HubState, id: SlotId)
    requires Safe(h)
    ensures Safe(StoreDelete(h, id)) && id !in StoreDelete(h, id).slots
  {
  }

  lemma UpdateKeepsSafe(h: HubState, s: SlotValue)
    requires Safe(h) && s.id in h.slots && s.code == h.slots[s.id].code && SlotOk(s)
    ensures Safe(StoreUpdate(h, s))
  {
  }

  lemma DisconnectKeepsSafe(h: HubState, c: ConnId)
    requires Safe(h)
    ensures Safe(Disconnect(h, c))
  {
    hide SendAll, OtherMembers;
    if c in h.conns && h.conns[c].slotId.Some? && h.conns[c].slotId.value in h.slots {
      var id := h.conns[c].slotId.value;
      var s := WithoutPeer(h.slots[id], c);
      var h1 := h.(conns := h.conns - {c});
      SendAllIsQuiet(h1, OtherMembers(s, c), PeerLeft(c, ConnectedCount(s), s.maxPeers));
      var h2 := SendAll(h1, OtherMembers(s, c), PeerLeft(c, ConnectedCount(s), s.maxPeers));
      assert Safe(h2);
      DeleteKeepsSafe(h2, id);
      UpdateKeepsSafe(h2, s);
    }
  }

  lemma ByeKeepsSafe(h: HubState, c: ConnId)
    requires Safe(h) && c in h.conns
    ensures Safe(SayBye(h, c))
  {
    hide SendAll, OtherMembers;
    if h.conns[c].slotId.Some? && h.conns[c].slotId.value in h.slots {
      var id := h.conns[c].slotId.value;
      var s := WithoutPeer(h.slots[id], c);
      SendAllIsQuiet(h, OtherMembers(h.slots[id], c), Bye);
      var h1 := SendAll(h, OtherMembers(h.slots[id], c), Bye);
      assert Safe(h1);
      DeleteKeepsSafe(h1, id);
      UpdateKeepsSafe(h1, s);
    }
  }

  lemma {:induction false} FirstFreeIsFree(codes: map<Code, SlotId>, attempts: seq<(SlotId, Code)>)
    ensures var f := FirstFree(codes, attempts);
            && (f.Some? ==> f.value in attempts && f.value.1 !in codes)
            && (f.None? ==> forall i :: 0 <= i < |attempts| ==> attempts[i].1 in codes)
  {
    if attempts != [] {
      FirstFreeIsFree(codes, attempts[1..]);
    }
  }

  lemma CreateKeepsSafe(h: HubState, c: ConnId, req: CreateRequest, attempts: seq<(SlotId, Code)>, now: int)
    requires Safe(h) && c in h.conns
    requires forall i :: 0 <= i < |attempts| ==> attempts[i].0 !in h.slots
    ensures Safe(Create(h, c, req, attempts, now))
  {
    hide Send, FirstFree, IndexOk, SlotOk;
    FirstFreeIsFree(h.codes, attempts);
    SendIsQuiet(h, c, Error(BadPayload));
    SendIsQuiet(h, c, Error(VersionMismatch));
    SendIsQuiet(h, c, Error(Internal));
    var f := FirstFree(h.codes, attempts);
    if req.CreateWith? && f.Some? {
      var s := Fresh(f.value.0, f.value.1, c, req.maxPeers, now);
      var h1 := Added(h, c, s);
      AddKeepsSafe(h, c, s);
      SendIsQuiet(h1, c, SlotCreated(s.id, s.code, s.maxPeers));
    }
  }

  /** The hub with a new slot recorded for its initiator. */
  function Added(h: HubState, c: ConnId, s: SlotValue): HubState
    requires c in h.conns
  {
    h.(slots := h.slots[s.id := s], codes := h.codes[s.code := s.id],
       conns := h.conns[c := h.conns[c].(slotId := Some(s.id))])
  }

  lemma AddKeepsSafe(h: HubState, c: ConnId, s: SlotValue)
    requires Safe(h) && c in h.conns && s.id !in h.slots && s.code !in h.codes
    requires exists n, now :: s == Fresh(s.id, s.code, c, n, now)
    ensures Safe(Added(h, c, s))
  {
  }

  lemma NotifyIsQuiet(h: HubState, c: ConnId, s: SlotValue, others: seq<ConnId>)
    ensures var h' := NotifyJoined(h, c, s, others);
            && OnlyQueues(h, h')
            && OthersUntouched(h, h', (set x | x in others) + {c, s.initiator})
  {
    hide Send, SendAll;
    var n := ConnectedCount(s);
    var h1 := Send(h, c, SlotReady(Responder, n, s.maxPeers));
    var h2 := Send(h1, s.initiator, PeerJoined(c, n, s.maxPeers));
    var h3 := SendAll(h2, Without(others, s.initiator), PeerJoined(c, n, s.maxPeers));
    SendIsQuiet(h, c, SlotReady(Responder, n, s.maxPeers));
    SendIsQuiet(h1, s.initiator, PeerJoined(c, n, s.maxPeers));
    SendAllIsQuiet(h2, Without(others, s.initiator), PeerJoined(c, n, s.maxPeers));
    SendIsQuiet(h3, s.initiator, SlotReady(Initiator, n, s.maxPeers));
  }

  lemma FailJoinIsQuiet(h: HubState, c: ConnId, e: ErrorCode)
    requires c in h.conns
    ensures OnlyQueues(h, FailJoin(h, c, e)) && OthersUntouched(h, FailJoin(h, c, e), {c})
  {
  }

  lemma AdmitKeepsSafe(h: HubState, c: ConnId, s: SlotValue)
    requires Safe(h) && c in h.conns && s.id in h.slots && h.slots[s.id] == s && CanJoin(s)
    ensures Safe(Admit(h, c, s))
  {
    hide Send, NotifyJoined, OtherMembers;
    var s' := WithPeer(s, c);
    var h1 := StoreUpdate(h, s').(conns := h.conns[c := h.conns[c].(slotId := Some(s.id))]);
    UpdateKeepsSafe(h, s');
    SendIsQuiet(h1, c, Error(PeerGone));
    DeleteKeepsSafe(Send(h1, c, Error(PeerGone)), s.id);
    NotifyIsQuiet(h1, c, s', OtherMembers(s, c));
  }

  /** The create or join of this event takes effect. */
  predicate Succeeds(h: HubState, e: Event) {
    match e
    case CreateMsg(c, req, attempts, _) => req.CreateWith? && req.versionOk && FirstFree(h.codes, attempts).Some?
    case JoinMsg(c, req, now) =>
      && req.JoinWith? && req.versionOk && req.codeWellFormed
      && req.code in h.codes && h.codes[req.code] in h.slots
      && now <= h.slots[h.codes[req.code]].expiresAt && CanJoin(h.slots[h.codes[req.code]])
    case _ => false
  }

  lemma SafeIndex(h: HubState, code: Code)
    requires Safe(h) && code in h.codes
    ensures h.codes[code] in h.slots && h.slots[h.codes[code]].id == h.codes[code]
  {
  }

  /** A join either leaves slots alone, deletes an expired one, or admits the peer. */
  lemma JoinShape(h: HubState, c: ConnId, req: JoinRequest, now: int)
    requires Safe(h) && c in h.conns
    ensures var h' := Join(h, c, req, now);
            var s := if req.JoinWith? && req.code in h.codes && h.codes[req.code] in h.slots
                     then Some(h.slots[h.codes[req.code]]) else None;
            && (s.Some? ==> s.value.id in h.slots && h.slots[s.value.id] == s.value)
            && (if Succeeds(h, JoinMsg(c, req, now)) then h' == Admit(h, c, s.value)
                else OnlyQueues(h, h')
                     || (s.Some? && h' == Send(StoreDelete(h, s.value.id), c, Error(SlotExpired))))
  {
    hide Send, FailJoin, Admit, SlotOk;
    FailJoinIsQuiet(h, c, InvalidCode);
    FailJoinIsQuiet(h, c, SlotNotFound);
    SendIsQuiet(h, c, Error(VersionMismatch));
    SendIsQuiet(h, c, Error(BadPayload));
    SendIsQuiet(h, c, Error(IsFull));
    SendIsQuiet(h, c, Error(IsClosed));
    if req.JoinWith? && req.code in h.codes {
      SafeIndex(h, req.code);
    }
  }

  lemma JoinKeepsSafe(h: HubState, c: ConnId, req: JoinRequest, now: int)
    requires Safe(h) && c in h.conns
    ensures Safe(Join(h, c, req, now))
  {
    hide Send, Admit, Join, StoreDelete, SlotOk, IndexOk;
    JoinShape(h, c, req, now);
    if Succeeds(h, JoinMsg(c, req, now)) {
      AdmitKeepsSafe(h, c, h.slots[h.codes[req.code]]);
    } else if !OnlyQueues(h, Join(h, c, req, now)) {
      var id := h.slots[h.codes[req.code]].id;
      DeleteKeepsSafe(h, id);
      SendIsQuiet(StoreDelete(h, id), c, Error(SlotExpired));
    }
  }

  /** Relayed messages go to members of the slot the sender's own slotId names, and carry the envelope unchanged. */
  lemma RelayIsConfined(h: HubState, c: ConnId, e: Envelope)
    requires c in h.conns
    ensures var h' := Relay(h, c, e);
            && OnlyQueues(h, h')
            && forall x :: x in h.conns && x != c && h'.conns[x] != h.conns[x] ==>
                 && h.conns[c].slotId.Some? && h.conns[c].slotId.value in h.slots
                 && IsMember(h.slots[h.conns[c].slotId.value], x)
                 && h'.conns[x].sent == h.conns[x].sent + [Forwarded(e)]
                 && (e.Targeted? ==> e.target == Some(x))
                 && (e.Direct? ==> x == h.slots[h.conns[c].slotId.value].initiator
                                   || c == h.slots[h.conns[c].slotId.value].initiator)
  {
    hide Relay, Send, OthersUntouched;
    var x, m := RelayShape(h, c, e);
    if Relay(h, c, e) != h {
      SendAddsOne(h, x, m);
    }
  }

  lemma SendAddsOne(h: HubState, x: ConnId, m: Msg)
    ensures var h' := Send(h, x, m);
            && OnlyQueues(h, h')
            && forall y :: y in h.conns && h'.conns[y] != h.conns[y] ==> y == x && h'.conns[y].sent == h.conns[y].sent + [m]
  {
  }

  /** A relay sends at most one frame: an error to the sender, or the envelope to a member of its slot. */
  lemma RelayShape(h: HubState, c: ConnId, e: Envelope) returns (x: ConnId, m: Msg)
    requires c in h.conns
    ensures Relay(h, c, e) == h || Relay(h, c, e) == Send(h, x, m)
    ensures Relay(h, c, e) != h && x != c ==>
              && m == Forwarded(e)
              && h.conns[c].slotId.Some? && h.conns[c].slotId.value in h.slots
              && IsMember(h.slots[h.conns[c].slotId.value], x)
              && (e.Targeted? ==> e.target == Some(x))
              && (e.Direct? ==> x == h.slots[h.conns[c].slotId.value].initiator
                                || c == h.slots[h.conns[c].slotId.value].initiator)
  {
    hide Send;
    var id := h.conns[c].slotId;
    x, m := c, Error(PeerGone);
    if id.None? {
      m := Error(NotInSlot);
    } else if id.value !in h.slots {
      m := Error(SlotNotFound);
    } else {
      var s := h.slots[id.value];
      if e.Targeted? {
        if e.target.None? {
          m := Error(BadPayload);
        } else {
          x, m := e.target.value, Forwarded(e);
        }
      } else if c != s.initiator || s.peers != [] {
        var target := if c == s.initiator then s.peers[0] else s.initiator;
        if target in h.conns {
          x, m := target, Forwarded(e);
        }
      }
    }
  }

  lemma StepKeepsSafe(h: HubState, e: Event)
    requires Safe(h) && Possible(h, e)
    ensures Safe(Step(h, e))
  {
    hide Disconnect, Create, Join, Relay, SayBye, Send, SlotOk, IndexOk;
    match e {
      case Unregister(c) => DisconnectKeepsSafe(h, c);
      case CreateMsg(c, req, attempts, now) => CreateKeepsSafe(h, c, req, attempts, now);
      case JoinMsg(c, req, now) => JoinKeepsSafe(h, c, req, now);
      case RelayMsg(c, env) => RelayIsConfined(h, c, env);
      case ByeMsg(c) => ByeKeepsSafe(h, c);
      case UnknownMsg(c) => SendIsQuiet(h, c, Error(UnknownType));
      case _ =>
    }
  }

  /** Hub safety: in every state any clients can drive the hub into, all stored slots and the index are sound. */
  lemma {:induction false} ReachableIsSafe(h: HubState, es: seq<Event>)
    requires Safe(h) && Runs(h, es)
    ensures Safe(Exec(h, es))
    decreases |es|
  {
    hide Safe, Step, Possible;
    if es != [] {
      StepKeepsSafe(h, es[0]);
      ReachableIsSafe(Step(h, es[0]), es[1..]);
    }
  }

  lemma ReachableFromStart(es: seq<Event>)
    requires Runs(START, es)
    ensures var h := Exec(START, es);
            && IndexOk(h.slots, h.codes)
            && (forall id :: id in h.slots ==> SlotOk(h.slots[id]))
  {
    ReachableIsSafe(START, es);
  }

  /** How one step can change one stored slot. */
  lemma SlotAfterStep(h: HubState, e: Event, id: SlotId)
    requires Safe(h) && Possible(h, e) && id in h.slots && id in Step(h, e).slots
    ensures var s, s' := h.slots[id], Step(h, e).slots[id];
            || s' == s
            || (exists c :: s' == WithoutPeer(s, c))
            || (exists c :: CanJoin(s) && s' == WithPeer(s, c))
  {
    hide Send, SendAll, WithoutPeer, WithPeer, OtherMembers, NotifyJoined, FailJoin, SlotOk, FirstFree;
    match e {
      case Unregister(c) => DisconnectSlots(h, c, id);
      case ByeMsg(c) => ByeSlots(h, c, id);
      case CreateMsg(c, req, attempts, now) =>
        FirstFreeIsFree(h.codes, attempts);
        CreateSlots(h, c, req, attempts, now, id);
      case JoinMsg(c, req, now) => JoinSlots(h, c, req, now, id);
      case RelayMsg(c, env) => RelayIsConfined(h, c, env);
      case UnknownMsg(c) => SendIsQuiet(h, c, Error(UnknownType));
      case _ =>
    }
  }

  lemma DisconnectSlots(h: HubState, c: ConnId, id: SlotId)
    requires id in h.slots && id in Disconnect(h, c).slots && IndexOk(h.slots, h.codes)
    ensures Disconnect(h, c).slots[id] in {h.slots[id], WithoutPeer(h.slots[id], c)}
  {
    hide SendAll, OtherMembers;
    if c in h.conns && h.conns[c].slotId.Some? && h.conns[c].slotId.value in h.slots {
      var s := WithoutPeer(h.slots[h.conns[c].slotId.value], c);
      SendAllIsQuiet(h.(conns := h.conns - {c}), OtherMembers(s, c), PeerLeft(c, ConnectedCount(s), s.maxPeers));
    }
  }

  lemma ByeSlots(h: HubState, c: ConnId, id: SlotId)
    requires c in h.conns && id in h.slots && id in SayBye(h, c).slots && IndexOk(h.slots, h.codes)
    ensures SayBye(h, c).slots[id] in {h.slots[id], WithoutPeer(h.slots[id], c)}
  {
    hide SendAll, OtherMembers;
    if h.conns[c].slotId.Some? && h.conns[c].slotId.value in h.slots {
      SendAllIsQuiet(h, OtherMembers(h.slots[h.conns[c].slotId.value], c), Bye);
    }
  }

  lemma CreateSlots(h: HubState, c: ConnId, req: CreateRequest, attempts: seq<(SlotId, Code)>, now: int, id: SlotId)
    requires c in h.conns && id in h.slots
    requires forall i :: 0 <= i < |attempts| ==> attempts[i].0 !in h.slots
    ensures id in Create(h, c, req, attempts, now).slots
    ensures Create(h, c, req, attempts, now).slots[id] == h.slots[id]
  {
    FirstFreeIsFree(h.codes, attempts);
  }

  lemma JoinSlots(h: HubState, c: ConnId, req: JoinRequest, now: int, id: SlotId)
    requires c in h.conns && Safe(h) && id in h.slots && id in Join(h, c, req, now).slots
    ensures var s' := Join(h, c, req, now).slots[id];
            s' == h.slots[id] || (CanJoin(h.slots[id]) && s' == WithPeer(h.slots[id], c))
  {
    hide Send, Admit, Join, WithPeer, Safe;
    JoinShape(h, c, req, now);
    if Succeeds(h, JoinMsg(c, req, now)) {
      AdmitSlots(h, c, h.slots[h.codes[req.code]]);
    } else if !OnlyQueues(h, Join(h, c, req, now)) {
      SendIsQuiet(StoreDelete(h, h.slots[h.codes[req.code]].id), c, Error(SlotExpired));
    }
  }

  lemma AdmitSlots(h: HubState, c: ConnId, s: SlotValue)
    requires c in h.conns
    ensures var h' := Admit(h, c, s);
            h'.slots == h.slots[s.id := WithPeer(s, c)] || h'.slots == h.slots - {s.id}
  {
    hide Send, NotifyJoined, OtherMembers, WithPeer;
    var s1 := WithPeer(s, c);
    var h1 := StoreUpdate(h, s1).(conns := h.conns[c := h.conns[c].(slotId := Some(s.id))]);
    assert s1.id == s.id by { WithPeerId(s, c); }
    SendIsQuiet(h1, c, Error(PeerGone));
    NotifyIsQuiet(h1, c, s1, OtherMembers(s, c));
  }

  lemma WithPeerId(s: SlotValue, c: ConnId)
    ensures WithPeer(s, c).id == s.id
  {
  }

  /** Once a slot has been full it takes nobody in again: its membership only shrinks. */
  lemma EverFullNeverGrows(h: HubState, e: Event, id: SlotId)
    requires Safe(h) && Possible(h, e) && id in h.slots && id in Step(h, e).slots && h.slots[id].everFull
    ensures var s, s' := h.slots[id], Step(h, e).slots[id];
            s'.everFull && |s'.peers| <= |s.peers| && forall p :: p in s'.peers ==> p in s.peers
  {
    hide Step, Possible, Safe;
    SlotAfterStep(h, e, id);
  }

  predicate StaysStored(h: HubState, es: seq<Event>, id: SlotId)
    requires Runs(h, es)
    decreases |es|
  {
    id in h.slots && (es == [] || StaysStored(Step(h, es[0]), es[1..], id))
  }

  /** Over any run in which the slot stays stored, from any moment it has been full, nobody enters it again. */
  lemma {:induction false} FullSlotsOnlyShrink(h: HubState, es: seq<Event>, id: SlotId)
    requires Safe(h) && Runs(h, es) && StaysStored(h, es, id) && h.slots[id].everFull
    ensures id in Exec(h, es).slots
    ensures var s, s' := h.slots[id], Exec(h, es).slots[id];
            s'.everFull && |s'.peers| <= |s.peers| && forall p :: p in s'.peers ==> p in s.peers
    decreases |es|
  {
    hide Safe, Step, Possible;
    if es != [] {
      StepKeepsSafe(h, es[0]);
      assert id in Step(h, es[0]).slots;
      EverFullNeverGrows(h, es[0], id);
      FullSlotsOnlyShrink(Step(h, es[0]), es[1..], id);
    }
  }
}
