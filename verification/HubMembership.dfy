/**
 * Slots and connections agree exactly in the runs in which no connection creates or joins a slot while it
 * is a member of another.
 */
module HubMembership {
  import opened Prelude
  import opened Slots
  import opened Hub
  import opened HubProofs

  predicate NoDuplicates(ids: seq<ConnId>) {
    forall i, j :: 0 <= i < j < |ids| ==> ids[i] != ids[j]
  }

  /** Every member of the slot is connected and says it is in this slot. */
  ghost predicate MembersLive(h: HubState, s: SlotValue) {
    && s.initiator !in s.peers && NoDuplicates(s.peers)
    && forall x :: IsMember(s, x) ==> x in h.conns && h.conns[x].slotId == Some(s.id)
  }

  ghost predicate Agrees(h: HubState) {
    Safe(h) && forall id :: id in h.slots ==> MembersLive(h, h.slots[id])
  }

  /** c is in no stored slot; its slotID may still name one that it left or that is gone. */
  predicate Outsider(h: HubState, c: ConnId) {
    forall id :: id in h.slots ==> !IsMember(h.slots[id], c)
  }

  /** The rule: only a connection that is in no stored slot creates or joins one. */
  predicate OneSlot(h: HubState, e: Event) {
    Possible(h, e) && (Succeeds(h, e) ==> Outsider(h, e.c))
  }

  /** A connection that never created or joined anything meets the rule. */
  lemma NewcomerIsOutsider(h: HubState, c: ConnId)
    requires Agrees(h) && c in h.conns && h.conns[c].slotId.None?
    ensures Outsider(h, c)
  {
    hide IsMember, Safe;
  }

  lemma QuietKeepsAgreement(h: HubState, h': HubState)
    requires Agrees(h) && OnlyQueues(h, h')
    ensures Agrees(h')
  {
  }

  lemma NotAMember(h: HubState, c: ConnId, id: SlotId)
    requires Agrees(h) && id in h.slots
    requires c in h.conns ==> h.conns[c].slotId != Some(id)
    ensures !IsMember(h.slots[id], c)
  {
  }

  lemma {:induction false} WithoutKeepsDistinct(ids: seq<ConnId>, c: ConnId)
    requires NoDuplicates(ids)
    ensures NoDuplicates(Without(ids, c))
  {
    if ids != [] {
      var front := ids[..|ids| - 1];
      WithoutKeepsDistinct(front, c);
      assert ids[|ids| - 1] !in front;
    }
  }

  lemma DeleteKeepsAgreement(h: HubState, id: SlotId)
    requires Agrees(h)
    ensures Agrees(StoreDelete(h, id))
  {
    hide SlotOk, IsMember;
    DeleteKeepsSafe(h, id);
  }

  /** What a disconnect leaves: everybody else connected, the leaver's slot shrunk or gone. */
  lemma DisconnectShape(h: HubState, c: ConnId)
    requires Agrees(h) && c in h.conns
    ensures var h' := Disconnect(h, c);
            var own := h.conns[c].slotId;
            && h'.conns.Keys == h.conns.Keys - {c}
            && (forall x :: x in h'.conns ==> h'.conns[x].slotId == h.conns[x].slotId)
            && (if own.Some? && own.value in h.slots then
                  var s := h.slots[own.value];
                  if c == s.initiator then h'.slots == h.slots - {own.value}
                  else h'.slots == h.slots[own.value := WithoutPeer(s, c)]
                else h'.slots == h.slots)
  {
    hide SendAll, OtherMembers, WithoutPeer, MembersLive, SlotOk;
    var own := h.conns[c].slotId;
    if own.Some? && own.value in h.slots {
      var h1 := h.(conns := h.conns - {c});
      var s := WithoutPeer(h.slots[own.value], c);
      ShrunkSlot(h.slots[own.value], c);
      SendAllIsQuiet(h1, OtherMembers(s, c), PeerLeft(c, ConnectedCount(s), s.maxPeers));
    }
  }

  /** One connection leaves; the slots it belongs to have been shrunk or deleted. */
  lemma DisconnectKeepsAgreement(h: HubState, c: ConnId)
    requires Agrees(h)
    ensures Agrees(Disconnect(h, c))
  {
    hide Disconnect, SlotOk, IndexOk, WithoutPeer, IsMember;
    DisconnectKeepsSafe(h, c);
    if c in h.conns {
      var h' := Disconnect(h, c);
      DisconnectShape(h, c);
      forall id | id in h'.slots
        ensures MembersLive(h', h'.slots[id])
      {
        if h.conns[c].slotId == Some(id) {
          ShrunkSlot(h.slots[id], c);
        } else {
          NotAMember(h, c, id);
        }
      }
    } else {
      assert Disconnect(h, c) == h by { AbsentDisconnect(h, c); }
    }
  }

  lemma LeaverNotice(h: HubState, c: ConnId)
    requires Agrees(h) && c in h.conns && h.conns[c].slotId.Some? && h.conns[c].slotId.value in h.slots
    ensures var s := WithoutPeer(h.slots[h.conns[c].slotId.value], c);
            var h2 := SendAll(h.(conns := h.conns - {c}), OtherMembers(s, c), PeerLeft(c, ConnectedCount(s), s.maxPeers));
            Disconnect(h, c).conns == h2.conns && Disconnect(h, c).dropped == h2.dropped
  {
    hide SendAll, OtherMembers, WithoutPeer, Agrees;
  }

  lemma AbsentDisconnect(h: HubState, c: ConnId)
    requires c !in h.conns
    ensures Disconnect(h, c) == h
  {
  }

  lemma ShrunkSlot(s: SlotValue, c: ConnId)
    ensures var s' := WithoutPeer(s, c);
            && s'.id == s.id && s'.initiator == s.initiator && s'.maxPeers == s.maxPeers
            && s'.peers == Without(s.peers, c)
            && (NoDuplicates(s.peers) ==> NoDuplicates(s'.peers))
            && (forall x :: IsMember(s', x) ==> IsMember(s, x) && (x != c || x == s.initiator))
  {
    if NoDuplicates(s.peers) {
      WithoutKeepsDistinct(s.peers, c);
    }
  }

  lemma ByeShape(h: HubState, c: ConnId)
    requires Safe(h) && c in h.conns
    ensures var h' := SayBye(h, c);
            var own := h.conns[c].slotId;
            && h'.conns.Keys == h.conns.Keys
            && (forall x :: x in h'.conns ==> h'.conns[x].slotId == h.conns[x].slotId)
            && (if own.Some? && own.value in h.slots then
                  var s := h.slots[own.value];
                  if c == s.initiator then h'.slots == h.slots - {own.value}
                  else h'.slots == h.slots[own.value := WithoutPeer(s, c)]
                else h'.slots == h.slots)
  {
    hide SendAll, OtherMembers, WithoutPeer, SlotOk, OthersUntouched, LastSent;
    var own := h.conns[c].slotId;
    if own.Some? && own.value in h.slots {
      ShrunkSlot(h.slots[own.value], c);
      SendAllIsQuiet(h, OtherMembers(h.slots[own.value], c), Bye);
    }
  }

  lemma ByeKeepsAgreement(h: HubState, c: ConnId)
    requires Agrees(h) && c in h.conns
    ensures Agrees(SayBye(h, c))
  {
    hide SayBye, Safe, WithoutPeer, IsMember;
    ByeKeepsSafe(h, c);
    ByeShape(h, c);
    var h' := SayBye(h, c);
    forall id | id in h'.slots
      ensures MembersLive(h', h'.slots[id])
    {
      if h.conns[c].slotId == Some(id) {
        ShrunkSlot(h.slots[id], c);
      }
    }
  }

  lemma CreateIsAdd(h: HubState, c: ConnId, req: CreateRequest, attempts: seq<(SlotId, Code)>, now: int)
    requires c in h.conns && Succeeds(h, CreateMsg(c, req, attempts, now))
    ensures var f := FirstFree(h.codes, attempts).value;
            var s := Fresh(f.0, f.1, c, req.maxPeers, now);
            Create(h, c, req, attempts, now) == Send(Added(h, c, s), c, SlotCreated(s.id, s.code, s.maxPeers))
  {
    hide Send, FirstFree;
  }

  lemma CreatedAgrees(h: HubState, c: ConnId, req: CreateRequest, attempts: seq<(SlotId, Code)>, now: int)
    requires Agrees(h) && OneSlot(h, CreateMsg(c, req, attempts, now))
    requires Succeeds(h, CreateMsg(c, req, attempts, now))
    ensures var f := FirstFree(h.codes, attempts).value;
            Agrees(Added(h, c, Fresh(f.0, f.1, c, req.maxPeers, now)))
  {
    hide FirstFree, SlotOk, IndexOk;
    FirstFreeIsFree(h.codes, attempts);
    var f := FirstFree(h.codes, attempts).value;
    AddKeepsSafe(h, c, Fresh(f.0, f.1, c, req.maxPeers, now));
  }

  lemma CreateKeepsAgreement(h: HubState, c: ConnId, req: CreateRequest, attempts: seq<(SlotId, Code)>, now: int)
    requires Agrees(h) && OneSlot(h, CreateMsg(c, req, attempts, now))
    ensures Agrees(Create(h, c, req, attempts, now))
  {
    hide Send, FirstFree, Agrees, Added;
    var h' := Create(h, c, req, attempts, now);
    if Succeeds(h, CreateMsg(c, req, attempts, now)) {
      var f := FirstFree(h.codes, attempts).value;
      var s := Fresh(f.0, f.1, c, req.maxPeers, now);
      CreatedAgrees(h, c, req, attempts, now);
      CreateIsAdd(h, c, req, attempts, now);
      SendIsQuiet(Added(h, c, s), c, SlotCreated(s.id, s.code, s.maxPeers));
      QuietKeepsAgreement(Added(h, c, s), h');
    } else {
      SendIsQuiet(h, c, Error(BadPayload));
      SendIsQuiet(h, c, Error(VersionMismatch));
      SendIsQuiet(h, c, Error(Internal));
      QuietKeepsAgreement(h, h');
    }
  }

  lemma JoinedSlot(s: SlotValue, c: ConnId)
    ensures var s' := WithPeer(s, c);
            && s'.id == s.id && s'.initiator == s.initiator && s'.maxPeers == s.maxPeers && s'.code == s.code
            && s'.peers == s.peers + [c]
            && (forall x :: IsMember(s', x) <==> IsMember(s, x) || x == c)
            && (NoDuplicates(s.peers) && c !in s.peers ==> NoDuplicates(s'.peers))
  {
  }

  /** The join succeeds with its initiator connected: the PeerGone branch is never taken. */
  lemma AdmitKeepsAgreement(h: HubState, c: ConnId, s: SlotValue)
    requires Agrees(h) && c in h.conns && Outsider(h, c)
    requires s.id in h.slots && h.slots[s.id] == s && CanJoin(s)
    ensures Agrees(Admit(h, c, s)) && s.initiator in h.conns && s.initiator != c
    ensures s.id in Admit(h, c, s).slots && Admit(h, c, s).slots == h.slots[s.id := WithPeer(s, c)]
  {
    hide Send, NotifyJoined, OtherMembers, WithPeer, SlotOk, IndexOk;
    AdmitKeepsSafe(h, c, s);
    JoinedSlot(s, c);
    assert !IsMember(s, c);
    assert IsMember(s, s.initiator);
    var s' := WithPeer(s, c);
    var h1 := StoreUpdate(h, s').(conns := h.conns[c := h.conns[c].(slotId := Some(s.id))]);
    NotifyIsQuiet(h1, c, s', OtherMembers(s, c));
    forall id | id in h1.slots
      ensures MembersLive(h1, h1.slots[id])
    {
      assert id != s.id ==> !IsMember(h.slots[id], c);
    }
  }

  lemma JoinKeepsAgreement(h: HubState, c: ConnId, req: JoinRequest, now: int)
    requires Agrees(h) && OneSlot(h, JoinMsg(c, req, now))
    ensures Agrees(Join(h, c, req, now))
  {
    hide Send, Admit, MembersLive, Join, OnlyQueues, StoreDelete, SlotOk, IndexOk;
    JoinShape(h, c, req, now);
    var h' := Join(h, c, req, now);
    if Succeeds(h, JoinMsg(c, req, now)) {
      AdmitKeepsAgreement(h, c, h.slots[h.codes[req.code]]);
    } else if OnlyQueues(h, h') {
      QuietKeepsAgreement(h, h');
    } else {
      var h1 := StoreDelete(h, h.slots[h.codes[req.code]].id);
      DeleteKeepsAgreement(h, h.slots[h.codes[req.code]].id);
      SendIsQuiet(h1, c, Error(SlotExpired));
      QuietKeepsAgreement(h1, h');
    }
  }

  lemma StepKeepsAgreement(h: HubState, e: Event)
    requires Agrees(h) && OneSlot(h, e)
    ensures Agrees(Step(h, e))
  {
    hide Disconnect, Create, Join, Relay, SayBye, Send, SlotOk, IndexOk;
    match e {
      case Unregister(c) => DisconnectKeepsAgreement(h, c);
      case CreateMsg(c, req, attempts, now) => CreateKeepsAgreement(h, c, req, attempts, now);
      case JoinMsg(c, req, now) => JoinKeepsAgreement(h, c, req, now);
      case RelayMsg(c, env) =>
        RelayIsConfined(h, c, env);
        QuietKeepsAgreement(h, Relay(h, c, env));
      case ByeMsg(c) => ByeKeepsAgreement(h, c);
      case UnknownMsg(c) =>
        SendIsQuiet(h, c, Error(UnknownType));
        QuietKeepsAgreement(h, Send(h, c, Error(UnknownType)));
      case _ =>
    }
  }

  // ---------------------------------------------------------------- the rule is exact

  /** A member whose connection now names another slot, or nothing, breaks the agreement. */
  lemma StrandedMember(h: HubState, id: SlotId, x: ConnId)
    requires id in h.slots && IsMember(h.slots[id], x)
    requires x in h.conns ==> h.conns[x].slotId != Some(h.slots[id].id)
    ensures !Agrees(h)
  {
  }

  lemma CreateStrands(h: HubState, e: Event, id: SlotId)
    requires Agrees(h) && e.CreateMsg? && Possible(h, e) && Succeeds(h, e)
    requires id in h.slots && IsMember(h.slots[id], e.c)
    ensures !Agrees(Step(h, e))
  {
    hide Send, FirstFree, Create, IsMember, MembersLive, SlotOk;
    FirstFreeIsFree(h.codes, e.attempts);
    var f := FirstFree(h.codes, e.attempts).value;
    var s := Fresh(f.0, f.1, e.c, e.create.maxPeers, e.now);
    CreateIsAdd(h, e.c, e.create, e.attempts, e.now);
    SendIsQuiet(Added(h, e.c, s), e.c, SlotCreated(s.id, s.code, s.maxPeers));
    StrandedMember(Step(h, e), id, e.c);
  }

  /** Joining a slot one is already in lists the same connection twice. */
  lemma JoinedTwice(h: HubState, s: SlotValue, c: ConnId)
    requires IsMember(s, c) && s.id in h.slots && h.slots[s.id] == WithPeer(s, c)
    ensures !Agrees(h)
  {
    JoinedSlot(s, c);
    if c in s.peers {
      var i :| 0 <= i < |s.peers| && s.peers[i] == c;
      assert (s.peers + [c])[i] == (s.peers + [c])[|s.peers|];
    }
  }

  lemma AdmitStrands(h: HubState, c: ConnId, s: SlotValue, id: SlotId)
    requires Agrees(h) && c in h.conns && s.id in h.slots && h.slots[s.id] == s
    requires id in h.slots && IsMember(h.slots[id], c)
    ensures !Agrees(Admit(h, c, s))
  {
    hide Send, NotifyJoined, OtherMembers, WithPeer, SlotOk, NoDuplicates;
    var s' := WithPeer(s, c);
    JoinedSlot(s, c);
    assert MembersLive(h, s) && IsMember(s, s.initiator);
    var h1 := StoreUpdate(h, s').(conns := h.conns[c := h.conns[c].(slotId := Some(s.id))]);
    NotifyIsQuiet(h1, c, s', OtherMembers(s, c));
    if id == s.id {
      JoinedTwice(Admit(h, c, s), s, c);
    } else {
      StrandedMember(Admit(h, c, s), id, c);
    }
  }

  lemma JoinStrands(h: HubState, e: Event, id: SlotId)
    requires Agrees(h) && e.JoinMsg? && Possible(h, e) && Succeeds(h, e)
    requires id in h.slots && IsMember(h.slots[id], e.c)
    ensures !Agrees(Step(h, e))
  {
    hide Join, Admit, IsMember, MembersLive, SlotOk, IndexOk;
    JoinShape(h, e.c, e.join, e.now);
    AdmitStrands(h, e.c, h.slots[h.codes[e.join.code]], id);
  }

  /** A step keeps the agreement if and only if it does not put a member of a stored slot into a slot. */
  lemma StepAgreesIff(h: HubState, e: Event)
    requires Agrees(h) && Possible(h, e)
    ensures Agrees(Step(h, e)) <==> (Succeeds(h, e) ==> forall id :: id in h.slots ==> !IsMember(h.slots[id], e.c))
  {
    hide Agrees, Step, IsMember;
    if OneSlot(h, e) {
      StepKeepsAgreement(h, e);
    } else {
      var id :| id in h.slots && IsMember(h.slots[id], e.c);
      if e.CreateMsg? {
        CreateStrands(h, e, id);
      } else {
        JoinStrands(h, e, id);
      }
    }
  }

  predicate RuledRun(h: HubState, es: seq<Event>)
    decreases |es|
  {
    es == [] || (OneSlot(h, es[0]) && RuledRun(Step(h, es[0]), es[1..]))
  }

  ghost predicate AgreesThroughout(h: HubState, es: seq<Event>)
    requires Runs(h, es)
    decreases |es|
  {
    Agrees(h) && (es == [] || AgreesThroughout(Step(h, es[0]), es[1..]))
  }

  /** Over whole runs: agreement in every state passed if and only if every step obeys the rule. */
  lemma {:induction false} RuledIff(h: HubState, es: seq<Event>)
    requires Agrees(h) && Runs(h, es)
    ensures AgreesThroughout(h, es) <==> RuledRun(h, es)
    decreases |es|
  {
    hide Agrees, Step, Possible, Succeeds, Outsider;
    if es != [] {
      assert Agrees(Step(h, es[0])) <==> OneSlot(h, es[0]) by { StepOutsiderIff(h, es[0]); }
      if Agrees(Step(h, es[0])) {
        RuledIff(Step(h, es[0]), es[1..]);
      }
    }
  }

  lemma StepOutsiderIff(h: HubState, e: Event)
    requires Agrees(h) && Possible(h, e)
    ensures Agrees(Step(h, e)) <==> OneSlot(h, e)
  {
    hide Agrees, Step, IsMember, Succeeds;
    StepAgreesIff(h, e);
  }

  lemma {:induction false} RuledRunsAgree(h: HubState, es: seq<Event>)
    requires Agrees(h) && RuledRun(h, es)
    ensures Runs(h, es) && Agrees(Exec(h, es))
    decreases |es|
  {
    hide Agrees, Step, Possible;
    if es != [] {
      StepKeepsAgreement(h, es[0]);
      RuledRunsAgree(Step(h, es[0]), es[1..]);
    }
  }

  // ---------------------------------------------------------------- at most one slot per connection

  /** Who succeeded, in order. */
  function Successes(h: HubState, es: seq<Event>): seq<ConnId>
    requires Runs(h, es)
    decreases |es|
  {
    if es == [] then []
    else (if Succeeds(h, es[0]) then [es[0].c] else []) + Successes(Step(h, es[0]), es[1..])
  }

  /** A connection names a slot only after it has created or joined one. */
  lemma NamesAfterStep(h: HubState, e: Event, x: ConnId)
    requires Agrees(h) && OneSlot(h, e) && x in Step(h, e).conns && Step(h, e).conns[x].slotId.Some?
    ensures (x in h.conns && h.conns[x].slotId.Some?) || (Succeeds(h, e) && x == e.c)
  {
    hide Disconnect, Create, Join, Relay, SayBye, Send, Agrees, Succeeds;
    match e {
      case Unregister(c) => NamesAfterDisconnect(h, c, x);
      case CreateMsg(c, req, attempts, now) => NamesAfterCreate(h, e, x);
      case JoinMsg(c, req, now) => NamesAfterJoin(h, e, x);
      case RelayMsg(c, env) => RelayIsConfined(h, c, env);
      case ByeMsg(c) => NamesAfterBye(h, c, x);
      case UnknownMsg(c) => SendIsQuiet(h, c, Error(UnknownType));
      case _ =>
    }
  }

  lemma NamesAfterDisconnect(h: HubState, c: ConnId, x: ConnId)
    requires Agrees(h) && x in Disconnect(h, c).conns
    ensures x in h.conns && Disconnect(h, c).conns[x].slotId == h.conns[x].slotId
  {
    hide Disconnect, Agrees;
    if c in h.conns {
      DisconnectShape(h, c);
    } else {
      AbsentDisconnect(h, c);
    }
  }

  lemma NamesAfterBye(h: HubState, c: ConnId, x: ConnId)
    requires Agrees(h) && c in h.conns && x in SayBye(h, c).conns
    ensures x in h.conns && SayBye(h, c).conns[x].slotId == h.conns[x].slotId
  {
    hide SayBye, Safe;
    ByeShape(h, c);
  }

  lemma NamesAfterCreate(h: HubState, e: Event, x: ConnId)
    requires e.CreateMsg? && e.c in h.conns && x in Create(h, e.c, e.create, e.attempts, e.now).conns
    ensures x in h.conns
    ensures Create(h, e.c, e.create, e.attempts, e.now).conns[x].slotId == h.conns[x].slotId || (Succeeds(h, e) && x == e.c)
  {
    hide Send, FirstFree;
    SendIsQuiet(h, e.c, Error(BadPayload));
    SendIsQuiet(h, e.c, Error(VersionMismatch));
    SendIsQuiet(h, e.c, Error(Internal));
    if Succeeds(h, e) {
      var f := FirstFree(h.codes, e.attempts).value;
      var s := Fresh(f.0, f.1, e.c, e.create.maxPeers, e.now);
      CreateIsAdd(h, e.c, e.create, e.attempts, e.now);
      SendIsQuiet(Added(h, e.c, s), e.c, SlotCreated(s.id, s.code, s.maxPeers));
    }
  }

  lemma NamesAfterJoin(h: HubState, e: Event, x: ConnId)
    requires Agrees(h) && e.JoinMsg? && e.c in h.conns && x in Join(h, e.c, e.join, e.now).conns
    ensures x in h.conns
    ensures Join(h, e.c, e.join, e.now).conns[x].slotId == h.conns[x].slotId || (Succeeds(h, e) && x == e.c)
  {
    hide Join, Admit, Send, Safe;
    JoinShape(h, e.c, e.join, e.now);
    if Succeeds(h, e) {
      NamesAfterAdmit(h, e.c, h.slots[h.codes[e.join.code]], x);
    } else if !OnlyQueues(h, Join(h, e.c, e.join, e.now)) {
      SendIsQuiet(StoreDelete(h, h.slots[h.codes[e.join.code]].id), e.c, Error(SlotExpired));
    }
  }

  lemma NamesAfterAdmit(h: HubState, c: ConnId, s: SlotValue, x: ConnId)
    requires c in h.conns && x in Admit(h, c, s).conns
    ensures x in h.conns && (x == c || Admit(h, c, s).conns[x].slotId == h.conns[x].slotId)
  {
    hide Send, NotifyJoined, OtherMembers, WithPeer;
    var s' := WithPeer(s, c);
    var h1 := StoreUpdate(h, s').(conns := h.conns[c := h.conns[c].(slotId := Some(s.id))]);
    NotifyIsQuiet(h1, c, s', OtherMembers(s, c));
    SendIsQuiet(h1, c, Error(PeerGone));
  }

  ghost predicate OnlyTheseNameSlots(h: HubState, used: set<ConnId>) {
    forall x :: x in h.conns && h.conns[x].slotId.Some? ==> x in used
  }

  lemma {:induction false} FirstSuccessesAreRuled(h: HubState, es: seq<Event>, used: set<ConnId>)
    requires Agrees(h) && Runs(h, es) && OnlyTheseNameSlots(h, used)
    requires NoDuplicates(Successes(h, es)) && forall x :: x in used ==> x !in Successes(h, es)
    ensures RuledRun(h, es)
    decreases |es|
  {
    hide Agrees, Step, Possible, Succeeds, Outsider, OnlyTheseNameSlots;
    if es != [] {
      var e, h' := es[0], Step(h, es[0]);
      var later := Successes(h', es[1..]);
      if Succeeds(h, e) {
        assert Successes(h, es) == [e.c] + later;
        SucceederIsConnected(h, e);
        assert e.c !in used by { assert e.c == Successes(h, es)[0]; }
        UnusedIsOutsider(h, e.c, used);
      }
      assert OneSlot(h, e);
      StepKeepsAgreement(h, e);
      var used' := if Succeeds(h, e) then used + {e.c} else used;
      UsedAfterStep(h, e, used, used');
      assert NoDuplicates(later) && forall x :: x in later ==> x in Successes(h, es) by {
        TailOf(Successes(h, es), later);
      }
      if Succeeds(h, e) {
        HeadApart(e.c, later);
      }
      FirstSuccessesAreRuled(h', es[1..], used');
    }
  }

  lemma TailOf(all: seq<ConnId>, later: seq<ConnId>)
    requires NoDuplicates(all) && (all == later || (all != [] && all == [all[0]] + later))
    ensures NoDuplicates(later) && forall x :: x in later ==> x in all
  {
    if all != later {
      assert all[1..] == later;
      assert forall i :: 0 <= i < |later| ==> later[i] == all[i + 1];
    }
  }

  lemma HeadApart(c: ConnId, later: seq<ConnId>)
    requires NoDuplicates([c] + later)
    ensures c !in later
  {
    var all := [c] + later;
    assert all[0] == c && forall i :: 0 <= i < |later| ==> all[i + 1] == later[i];
  }

  lemma SucceederIsConnected(h: HubState, e: Event)
    requires Possible(h, e) && Succeeds(h, e)
    ensures e.c in h.conns
  {
  }

  lemma UnusedIsOutsider(h: HubState, c: ConnId, used: set<ConnId>)
    requires Agrees(h) && OnlyTheseNameSlots(h, used) && c in h.conns && c !in used
    ensures Outsider(h, c)
  {
    hide Agrees, Outsider;
    NewcomerIsOutsider(h, c);
  }

  lemma UsedAfterStep(h: HubState, e: Event, used: set<ConnId>, used': set<ConnId>)
    requires Agrees(h) && OneSlot(h, e) && OnlyTheseNameSlots(h, used)
    requires used' == if Succeeds(h, e) then used + {e.c} else used
    ensures OnlyTheseNameSlots(Step(h, e), used')
  {
    hide Agrees, OneSlot, Step, Possible, Succeeds;
    assert Possible(h, e) by { OneSlotIsPossible(h, e); }
    forall x | x in Step(h, e).conns && Step(h, e).conns[x].slotId.Some?
      ensures x in used'
    {
      NamesAfterStep(h, e, x);
    }
  }

  lemma OneSlotIsPossible(h: HubState, e: Event)
    requires OneSlot(h, e)
    ensures Possible(h, e)
  {
  }

  /** In particular a run obeys the rule if each connection succeeds in at most one create or join. */
  lemma OncePerConnectionIsRuled(es: seq<Event>)
    requires Runs(START, es) && NoDuplicates(Successes(START, es))
    ensures RuledRun(START, es) && Agrees(Exec(START, es))
  {
    FirstSuccessesAreRuled(START, es, {});
    RuledRunsAgree(START, es);
  }

  /**
   * Membership agrees with connections: no stored slot outlives its initiator, peers are distinct live
   * connections of the slot other than the initiator, and a join never finds the initiator gone.
   */
  lemma MembershipAgrees(es: seq<Event>)
    requires RuledRun(START, es)
    ensures Runs(START, es)
    ensures var h := Exec(START, es);
            && (forall id :: id in h.slots ==>
                  var s := h.slots[id];
                  && s.initiator in h.conns && h.conns[s.initiator].slotId == Some(id)
                  && s.initiator !in s.peers && NoDuplicates(s.peers)
                  && forall p :: p in s.peers ==> p in h.conns && h.conns[p].slotId == Some(id))
            && (forall c, req, now :: Succeeds(h, JoinMsg(c, req, now)) ==>
                  h.slots[h.codes[req.code]].initiator in h.conns)
  {
    RuledRunsAgree(START, es);
    var h := Exec(START, es);
    hide Exec, RuledRun;
    forall id | id in h.slots
      ensures var s := h.slots[id];
        && s.initiator in h.conns && h.conns[s.initiator].slotId == Some(id)
        && forall p :: p in s.peers ==> p in h.conns && h.conns[p].slotId == Some(id)
    {
      var s := h.slots[id];
      assert IsMember(s, s.initiator);
      assert forall p :: p in s.peers ==> IsMember(s, p);
    }
  }

  /** Without the rule it fails: a connection that creates two slots leaves the first one behind. */
  lemma TwoSlotsOrphanOne(c: ConnId, id1: SlotId, id2: SlotId, code1: Code, code2: Code)
    requires id1 != id2 && code1 != code2
    ensures exists es: seq<Event> :: Runs(START, es)
              && exists id :: id in Exec(START, es).slots
                   && Exec(START, es).slots[id].initiator !in Exec(START, es).conns
  {
    hide Step, Possible;
    var e1, e4 := Register(c), Unregister(c);
    var e2 := CreateMsg(c, CreateWith(true, 2), [(id1, code1)], 0);
    var e3 := CreateMsg(c, CreateWith(true, 2), [(id2, code2)], 0);
    var h3 := TwoCreated(c, e1, e2, e3, id1, id2, code1, code2);
    LoneLeaver(h3, c, id2);
    UnfoldRun(h3, e4, []);
    UnfoldRun(Step(Step(START, e1), e2), e3, [e4]);
    UnfoldRun(Step(START, e1), e2, [e3, e4]);
    UnfoldRun(START, e1, [e2, e3, e4]);
    var es := [e1] + [e2, e3, e4];
    assert [e3] + [e4] == [e3, e4] && [e2] + [e3, e4] == [e2, e3, e4] && [e4] + [] == [e4];
    assert Exec(START, es) == Step(h3, e4);
    assert id1 in Exec(START, es).slots;
  }

  lemma TwoCreated(c: ConnId, e1: Event, e2: Event, e3: Event, id1: SlotId, id2: SlotId, code1: Code, code2: Code)
    returns (h3: HubState)
    requires id1 != id2 && code1 != code2 && e1 == Register(c)
    requires e2 == CreateMsg(c, CreateWith(true, 2), [(id1, code1)], 0)
    requires e3 == CreateMsg(c, CreateWith(true, 2), [(id2, code2)], 0)
    ensures Possible(START, e1) && Possible(Step(START, e1), e2) && Possible(Step(Step(START, e1), e2), e3)
    ensures h3 == Step(Step(Step(START, e1), e2), e3)
    ensures h3.conns.Keys == {c} && h3.conns[c].slotId == Some(id2)
    ensures id1 in h3.slots && h3.slots[id1].initiator == c
    ensures id2 in h3.slots && h3.slots[id2].initiator == c && h3.slots[id2].peers == []
  {
    hide QueueFull;
    var h1 := Step(START, e1);
    assert FirstFree(h1.codes, [(id1, code1)]) == Some((id1, code1));
    var h2 := Step(h1, e2);
    assert h2.codes == map[code1 := id1];
    assert FirstFree(h2.codes, [(id2, code2)]) == Some((id2, code2));
    h3 := Step(h2, e3);
  }

  lemma LoneLeaver(h: HubState, c: ConnId, id: SlotId)
    requires c in h.conns && h.conns[c].slotId == Some(id)
    requires id in h.slots && h.slots[id].initiator == c && h.slots[id].peers == []
    ensures Possible(h, Unregister(c))
    ensures Step(h, Unregister(c)).slots == h.slots - {id} && Step(h, Unregister(c)).conns == h.conns - {c}
  {
    assert OtherMembers(WithoutPeer(h.slots[id], c), c) == [];
  }

  lemma UnfoldRun(h: HubState, e: Event, rest: seq<Event>)
    requires Possible(h, e)
    ensures Runs(h, [e] + rest) == Runs(Step(h, e), rest)
    ensures Runs(h, [e] + rest) ==> Exec(h, [e] + rest) == Exec(Step(h, e), rest)
  {
    assert ([e] + rest)[1..] == rest;
  }
}
