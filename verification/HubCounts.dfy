/** The peer counts clients were last told are the real ones. */
module HubCounts {
  import opened Prelude
  import opened Slots
  import opened Hub
  import opened HubProofs
  import opened HubMembership
  import opened HubNotices

  /** The count a frame carries: slot.ready, peer.joined and peer.left do. */
  function CountOf(m: Msg): Option<nat> {
    match m
    case SlotReady(_, n, _) => Some(n)
    case PeerJoined(_, n, _) => Some(n)
    case PeerLeft(_, n, _) => Some(n)
    case _ => None
  }

  /** The count a client was told last about the slot it is in; a newly created slot starts over. */
  function LastCount(sent: seq<Msg>): Option<nat> {
    if sent == [] || sent[|sent| - 1].SlotCreated? then None
    else if CountOf(sent[|sent| - 1]).Some? then CountOf(sent[|sent| - 1])
    else LastCount(sent[..|sent| - 1])
  }

  function LastTold(h: HubState, c: ConnId): Option<nat>
    requires c in h.conns
  {
    LastCount(h.conns[c].sent)
  }

  /** Peers know the count; the initiator knows it once a peer has joined. */
  ghost predicate ToldRight(h: HubState, s: SlotValue) {
    && (forall p :: p in s.peers ==> p in h.conns && LastTold(h, p) == Some(ConnectedCount(s)))
    && s.initiator in h.conns
    && (s.peers != [] || LastTold(h, s.initiator).Some? ==> LastTold(h, s.initiator) == Some(ConnectedCount(s)))
  }

  ghost predicate CountsAgree(h: HubState) {
    && Agrees(h)
    && (forall id :: id in h.slots ==> ToldRight(h, h.slots[id]))
  }

  lemma SendTells(h: HubState, c: ConnId, m: Msg)
    requires c in h.conns
    ensures var h' := Send(h, c, m);
            !h'.dropped ==> LastTold(h', c) == if CountOf(m).Some? || m.SlotCreated? then CountOf(m) else LastTold(h, c)
    ensures CountOf(m).None? && !m.SlotCreated? ==> LastTold(Send(h, c, m), c) == LastTold(h, c)
  {
    assert (h.conns[c].sent + [m])[..|h.conns[c].sent|] == h.conns[c].sent;
  }

  lemma LastMessageTells(sent: seq<Msg>, n: nat)
    requires sent != [] && CountOf(sent[|sent| - 1]) == Some(n)
    ensures LastCount(sent) == Some(n)
  {
  }

  /** Same slots, same memberships, nobody told anything new. */
  ghost predicate NothingTold(h: HubState, h': HubState) {
    && OnlyQueues(h, h')
    && forall c :: c in h.conns ==> LastTold(h', c) == LastTold(h, c)
  }

  lemma SilentSend(h: HubState, c: ConnId, m: Msg)
    requires CountOf(m).None? && !m.SlotCreated?
    ensures NothingTold(h, Send(h, c, m))
  {
    SendIsQuiet(h, c, m);
    if c in h.conns {
      SendTells(h, c, m);
    }
  }

  lemma NothingToldKeeps(h: HubState, h': HubState)
    requires CountsAgree(h) && NothingTold(h, h')
    ensures CountsAgree(h')
  {
    hide LastCount;
    QuietKeepsAgreement(h, h');
  }

  lemma NothingToldThen(h: HubState, h1: HubState, h2: HubState)
    requires NothingTold(h, h1) && NothingTold(h1, h2)
    ensures NothingTold(h, h2)
  {
  }

  lemma RecordingTellsNothing(h: HubState, c: ConnId, k: Conn)
    requires c in h.conns && k.slotId == h.conns[c].slotId && k.sent == h.conns[c].sent
    ensures NothingTold(h, h.(conns := h.conns[c := k]))
  {
  }

  lemma FailJoinTellsNothing(h: HubState, c: ConnId, e: ErrorCode)
    requires c in h.conns
    ensures NothingTold(h, FailJoin(h, c, e))
  {
    hide Send, NothingTold;
    var h1 := Send(h, c, Error(e));
    SilentSend(h, c, Error(e));
    SendIsQuiet(h, c, Error(e));
    var k := h1.conns[c].(failedJoins := h1.conns[c].failedJoins + 1);
    var h2 := h1.(conns := h1.conns[c := k]);
    RecordingTellsNothing(h1, c, k);
    NothingToldThen(h, h1, h2);
    SilentSend(h2, c, Error(TooManyAttempts));
    NothingToldThen(h, h2, Send(h2, c, Error(TooManyAttempts)));
  }

  lemma DeleteKeepsCounts(h: HubState, id: SlotId)
    requires CountsAgree(h)
    ensures CountsAgree(StoreDelete(h, id))
  {
    hide LastCount, Agrees;
    DeleteKeepsAgreement(h, id);
  }

  /** The members left behind are told the new count; members of other slots are told nothing. */
  lemma DisconnectKeepsCounts(h: HubState, c: ConnId)
    requires CountsAgree(h) && !Disconnect(h, c).dropped
    ensures CountsAgree(Disconnect(h, c))
  {
    hide LastCount, Agrees, Disconnect, WithoutPeer;
    DisconnectKeepsAgreement(h, c);
    if c !in h.conns {
      AbsentDisconnect(h, c);
      return;
    }
    DisconnectShape(h, c);
    var h' := Disconnect(h, c);
    forall id | id in h'.slots
      ensures ToldRight(h', h'.slots[id])
    {
      if h.conns[c].slotId == Some(id) {
        LeftBehind(h, c);
      } else {
        OtherSlotUntouched(h, c, id);
      }
    }
  }

  lemma OutsiderUntouched(h: HubState, c: ConnId, x: ConnId)
    requires Agrees(h) && c in h.conns && x in h.conns && x != c
    requires h.conns[c].slotId.None? || h.conns[x].slotId != h.conns[c].slotId
    ensures x in Disconnect(h, c).conns && Disconnect(h, c).conns[x] == h.conns[x]
  {
    hide SendAll, OtherMembers, WithoutPeer, MembersLive;
    var own := h.conns[c].slotId;
    if own.Some? && own.value in h.slots {
      NotAMember(h, x, own.value);
      ShrunkSlot(h.slots[own.value], c);
      var s := WithoutPeer(h.slots[own.value], c);
      SendAllIsQuiet(h.(conns := h.conns - {c}), OtherMembers(s, c), PeerLeft(c, ConnectedCount(s), s.maxPeers));
      assert x !in OtherMembers(s, c);
    }
  }

  lemma OtherSlotUntouched(h: HubState, c: ConnId, id: SlotId)
    requires CountsAgree(h) && c in h.conns && id in h.slots && h.conns[c].slotId != Some(id)
    requires id in Disconnect(h, c).slots && Disconnect(h, c).slots[id] == h.slots[id]
    ensures ToldRight(Disconnect(h, c), h.slots[id])
  {
    hide LastCount, Disconnect;
    var s := h.slots[id];
    NotAMember(h, c, id);
    assert IsMember(s, s.initiator);
    OutsiderUntouched(h, c, s.initiator);
    forall p | p in s.peers
      ensures p in Disconnect(h, c).conns && LastTold(Disconnect(h, c), p) == Some(ConnectedCount(s))
    {
      assert IsMember(s, p);
      OutsiderUntouched(h, c, p);
    }
  }

  lemma LeftBehind(h: HubState, c: ConnId)
    requires CountsAgree(h) && c in h.conns && h.conns[c].slotId.Some? && !Disconnect(h, c).dropped
    requires h.conns[c].slotId.value in h.slots && c != h.slots[h.conns[c].slotId.value].initiator
    ensures var id := h.conns[c].slotId.value;
            ToldRight(Disconnect(h, c), WithoutPeer(h.slots[id], c))
  {
    hide SendAll, OtherMembers, LastCount, WithoutPeer, Disconnect, Safe, ToldRight, NoDuplicates;
    var id := h.conns[c].slotId.value;
    var s := WithoutPeer(h.slots[id], c);
    ShrunkSlot(h.slots[id], c);
    var m := PeerLeft(c, ConnectedCount(s), s.maxPeers);
    var h1 := h.(conns := h.conns - {c});
    SendAllIsQuiet(h1, OtherMembers(s, c), m);
    var h2 := SendAll(h1, OtherMembers(s, c), m);
    LeaverNotice(h, c);
    forall x | IsMember(s, x)
      ensures x in h2.conns && LastTold(h2, x) == Some(ConnectedCount(s))
    {
      assert IsMember(h.slots[id], x) && x != c;
      LastMessageTells(h2.conns[x].sent, ConnectedCount(s));
    }
    AllToldIsRight(Disconnect(h, c), s);
  }

  lemma AllToldIsRight(h: HubState, s: SlotValue)
    requires forall x :: IsMember(s, x) ==> x in h.conns && LastTold(h, x) == Some(ConnectedCount(s))
    ensures ToldRight(h, s)
  {
    hide LastCount;
    assert IsMember(s, s.initiator);
    assert forall p :: p in s.peers ==> IsMember(s, p);
  }

  /** Everybody in the slot is told the new count when a peer joins. */
  lemma NotifyTells(h: HubState, c: ConnId, s: SlotValue)
    requires c in h.conns && !IsMember(s, c) && s.initiator !in s.peers && NoDuplicates(s.peers)
    requires !NotifyJoined(h, c, WithPeer(s, c), OtherMembers(s, c)).dropped
    ensures var h' := NotifyJoined(h, c, WithPeer(s, c), OtherMembers(s, c));
            forall x :: x in h.conns && x in h'.conns && (x == c || IsMember(s, x)) ==> LastTold(h', x) == Some(2 + |s.peers|)
  {
    hide NotifyJoined, WithPeer, OtherMembers, LastCount, NoDuplicates;
    var h' := NotifyJoined(h, c, WithPeer(s, c), OtherMembers(s, c));
    NotifyTellsEach(h, c, s);
    forall x | x in h.conns && x in h'.conns && (x == c || IsMember(s, x))
      ensures LastTold(h', x) == Some(2 + |s.peers|)
    {
      assert Heard(h, h', x, JoinNews(s, c, x));
      LastMessageTells(h'.conns[x].sent, 2 + |s.peers|);
    }
  }

  lemma JoinedAreTold(h: HubState, c: ConnId, s: SlotValue)
    requires Agrees(h) && c in h.conns && Outsider(h, c)
    requires s.id in h.slots && h.slots[s.id] == s && CanJoin(s) && !Admit(h, c, s).dropped
    ensures ToldRight(Admit(h, c, s), WithPeer(s, c))
    ensures Admit(h, c, s).conns.Keys == h.conns.Keys
    ensures forall x :: x in h.conns && x != c && !IsMember(s, x) ==> Admit(h, c, s).conns[x] == h.conns[x]
    ensures Admit(h, c, s).conns[c].slotId.Some?
  {
    hide Send, SendAll, NotifyJoined, WithPeer, LastCount, OtherMembers, Safe, ToldRight, NoDuplicates;
    JoinedSlot(s, c);
    assert !IsMember(s, c);
    assert IsMember(s, s.initiator);
    var s' := WithPeer(s, c);
    var h1 := StoreUpdate(h, s').(conns := h.conns[c := h.conns[c].(slotId := Some(s.id))]);
    var others := OtherMembers(s, c);
    NotifyIsQuiet(h1, c, s', others);
    NotifyTells(h1, c, s);
    assert forall x :: IsMember(s', x) ==> x in h1.conns && (x == c || x in others);
    AllToldIsRight(Admit(h, c, s), s');
  }

  lemma AdmitKeepsCounts(h: HubState, c: ConnId, s: SlotValue)
    requires CountsAgree(h) && c in h.conns && Outsider(h, c)
    requires s.id in h.slots && h.slots[s.id] == s && CanJoin(s) && !Admit(h, c, s).dropped
    ensures CountsAgree(Admit(h, c, s))
  {
    hide Admit, WithPeer, LastCount, Agrees, ToldRight, IsMember;
    AdmitKeepsAgreement(h, c, s);
    JoinedAreTold(h, c, s);
    var h' := Admit(h, c, s);
    forall id | id in h'.slots
      ensures ToldRight(h', h'.slots[id])
    {
      if id != s.id {
        Bystanders(h, h', c, s, id);
      }
    }
  }

  /** Members of another slot are not among those notified. */
  lemma Bystanders(h: HubState, h': HubState, c: ConnId, s: SlotValue, id: SlotId)
    requires CountsAgree(h) && s.id in h.slots && h.slots[s.id] == s && id in h.slots && id != s.id
    requires c in h.conns && Outsider(h, c)
    requires h'.conns.Keys == h.conns.Keys
    requires forall x :: x in h.conns && x != c && !IsMember(s, x) ==> h'.conns[x] == h.conns[x]
    ensures ToldRight(h', h.slots[id])
  {
    hide LastCount, Agrees;
    var t := h.slots[id];
    forall x | IsMember(t, x)
      ensures x in h.conns && h'.conns[x] == h.conns[x]
    {
      MemberOfOne(h, c, id, s.id, x);
    }
    assert IsMember(t, t.initiator);
    assert forall p :: p in t.peers ==> IsMember(t, p);
  }

  lemma MemberOfOne(h: HubState, c: ConnId, id: SlotId, other: SlotId, x: ConnId)
    requires Agrees(h) && id in h.slots && other in h.slots && id != other && IsMember(h.slots[id], x)
    requires c in h.conns && Outsider(h, c)
    ensures x in h.conns && x != c && !IsMember(h.slots[other], x)
  {
    hide IsMember, SlotOk;
  }

  lemma JoinKeepsCounts(h: HubState, c: ConnId, req: JoinRequest, now: int)
    requires CountsAgree(h) && OneSlot(h, JoinMsg(c, req, now)) && !Join(h, c, req, now).dropped
    ensures CountsAgree(Join(h, c, req, now))
  {
    hide Send, FailJoin, Admit, CountsAgree, NothingTold, Safe;
    FailJoinTellsNothing(h, c, InvalidCode);
    FailJoinTellsNothing(h, c, SlotNotFound);
    SilentSend(h, c, Error(VersionMismatch));
    SilentSend(h, c, Error(BadPayload));
    SilentSend(h, c, Error(IsFull));
    SilentSend(h, c, Error(IsClosed));
    if req.JoinWith? && req.code in h.codes && h.codes[req.code] in h.slots {
      var s := h.slots[h.codes[req.code]];
      assert s.id == h.codes[req.code] by { CountsIndex(h, req.code); }
      DeleteKeepsCounts(h, s.id);
      SilentSend(StoreDelete(h, s.id), c, Error(SlotExpired));
      NothingToldKeeps(StoreDelete(h, s.id), Send(StoreDelete(h, s.id), c, Error(SlotExpired)));
      if Succeeds(h, JoinMsg(c, req, now)) {
        AdmitKeepsCounts(h, c, s);
      }
    }
    if NothingTold(h, Join(h, c, req, now)) {
      NothingToldKeeps(h, Join(h, c, req, now));
    }
  }

  lemma CountsIndex(h: HubState, code: Code)
    requires CountsAgree(h) && code in h.codes
    ensures h.codes[code] in h.slots && h.slots[h.codes[code]].id == h.codes[code]
  {
    SafeIndex(h, code);
  }

  /** The creator of a slot starts over; nobody else hears anything. */
  lemma AddedKeepsCounts(h: HubState, c: ConnId, s: SlotValue)
    requires CountsAgree(h) && c in h.conns && Outsider(h, c) && s.peers == [] && s.initiator == c
    requires Agrees(Added(h, c, s)) && !Send(Added(h, c, s), c, SlotCreated(s.id, s.code, s.maxPeers)).dropped
    ensures CountsAgree(Send(Added(h, c, s), c, SlotCreated(s.id, s.code, s.maxPeers)))
  {
    hide LastCount, Agrees, Send;
    var h1, m := Added(h, c, s), SlotCreated(s.id, s.code, s.maxPeers);
    SendIsQuiet(h1, c, m);
    SendTells(h1, c, m);
    QuietKeepsAgreement(h1, Send(h1, c, m));
    forall id | id in h.slots && id != s.id
      ensures ToldRight(Send(h1, c, m), h.slots[id])
    {
      assert !IsMember(h.slots[id], c);
    }
  }

  lemma CreateKeepsCounts(h: HubState, c: ConnId, req: CreateRequest, attempts: seq<(SlotId, Code)>, now: int)
    requires CountsAgree(h) && OneSlot(h, CreateMsg(c, req, attempts, now)) && !Create(h, c, req, attempts, now).dropped
    ensures CountsAgree(Create(h, c, req, attempts, now))
  {
    hide Send, FirstFree, CountsAgree, NothingTold, Agrees, Added, Outsider;
    SilentSend(h, c, Error(BadPayload));
    SilentSend(h, c, Error(VersionMismatch));
    SilentSend(h, c, Error(Internal));
    if Succeeds(h, CreateMsg(c, req, attempts, now)) {
      var f := FirstFree(h.codes, attempts).value;
      var s := Fresh(f.0, f.1, c, req.maxPeers, now);
      AgreesNow(h);
      CreatedAgrees(h, c, req, attempts, now);
      CreateIsAdd(h, c, req, attempts, now);
      AddedKeepsCounts(h, c, s);
    } else {
      NothingToldKeeps(h, Create(h, c, req, attempts, now));
    }
  }

  lemma AgreesNow(h: HubState)
    requires CountsAgree(h)
    ensures Agrees(h)
  {
  }

  lemma RelayTellsNothing(h: HubState, c: ConnId, e: Envelope)
    requires c in h.conns
    ensures NothingTold(h, Relay(h, c, e))
  {
    hide Send, NothingTold;
    SilentSend(h, c, Error(NotInSlot));
    SilentSend(h, c, Error(SlotNotFound));
    SilentSend(h, c, Error(BadPayload));
    SilentSend(h, c, Error(PeerGone));
    forall x {
      SilentSend(h, x, Forwarded(e));
    }
    assert NothingTold(h, h) by { NothingToldSelf(h); }
  }

  lemma NothingToldSelf(h: HubState)
    ensures NothingTold(h, h)
  {
  }

  lemma StepKeepsCounts(h: HubState, e: Event)
    requires CountsAgree(h) && OneSlot(h, e) && !e.ByeMsg? && !Step(h, e).dropped
    ensures CountsAgree(Step(h, e))
  {
    hide Disconnect, Create, Join, Relay, SayBye, Send, CountsAgree, NothingTold;
    match e {
      case Unregister(c) => DisconnectKeepsCounts(h, c);
      case CreateMsg(c, req, attempts, now) => CreateKeepsCounts(h, c, req, attempts, now);
      case JoinMsg(c, req, now) => JoinKeepsCounts(h, c, req, now);
      case RelayMsg(c, env) =>
        RelayTellsNothing(h, c, env);
        NothingToldKeeps(h, Relay(h, c, env));
      case UnknownMsg(c) =>
        SilentSend(h, c, Error(UnknownType));
        NothingToldKeeps(h, Send(h, c, Error(UnknownType)));
      case Register(c) => RegisterKeepsCounts(h, c);
      case Drain(c) =>
        var h' := Step(h, e);
        assert NothingTold(h, h') by { DrainTellsNothing(h, c); }
        NothingToldKeeps(h, h');
      case _ =>
    }
  }

  lemma DrainTellsNothing(h: HubState, c: ConnId)
    requires Possible(h, Drain(c))
    ensures NothingTold(h, Step(h, Drain(c)))
  {
  }

  lemma RegisterKeepsCounts(h: HubState, c: ConnId)
    requires CountsAgree(h) && c !in h.conns
    ensures CountsAgree(Step(h, Register(c)))
  {
    hide LastCount, Agrees, Safe;
    StepKeepsAgreement(h, Register(c));
    RegisteredUntouched(h, c);
  }

  lemma RegisteredUntouched(h: HubState, c: ConnId)
    requires c !in h.conns
    ensures var h' := Step(h, Register(c));
            h'.slots == h.slots && forall x :: x in h.conns ==> x in h'.conns && h'.conns[x] == h.conns[x]
  {
  }

  /** No bye, and no frame lost to a full queue. */
  predicate QuietRun(h: HubState, es: seq<Event>)
    decreases |es|
  {
    es == [] || (OneSlot(h, es[0]) && !es[0].ByeMsg? && !Step(h, es[0]).dropped && QuietRun(Step(h, es[0]), es[1..]))
  }

  lemma {:induction false} QuietRunsAgree(h: HubState, es: seq<Event>)
    requires CountsAgree(h) && QuietRun(h, es)
    ensures Runs(h, es) && CountsAgree(Exec(h, es))
    decreases |es|
  {
    hide CountsAgree, Step, Possible;
    if es != [] {
      StepKeepsCounts(h, es[0]);
      QuietRunsAgree(Step(h, es[0]), es[1..]);
    }
  }

  /** After every hub step, each peer of a stored slot, and its initiator once a peer has joined, last heard the real count. */
  lemma PeerCountsAgree(es: seq<Event>)
    requires QuietRun(START, es)
    ensures Runs(START, es)
    ensures var h := Exec(START, es);
            forall id :: id in h.slots ==>
              var s := h.slots[id];
              && (forall p :: p in s.peers ==> p in h.conns && LastTold(h, p) == Some(ConnectedCount(s)))
              && s.initiator in h.conns
              && (s.peers != [] || LastTold(h, s.initiator).Some? ==>
                    LastTold(h, s.initiator) == Some(ConnectedCount(s)))
  {
    QuietRunsAgree(START, es);
  }
}
