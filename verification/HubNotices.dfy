/** Who is told what, and nobody anything else, when a peer joins, leaves or says bye. */
module HubNotices {
  import opened Prelude
  import opened Slots
  import opened Hub
  import opened HubProofs
  import opened HubMembership

  /** If connected throughout, x was queued exactly these messages on top of what it had. */
  ghost predicate Heard(h: HubState, h': HubState, x: ConnId, news: seq<Msg>) {
    x in h.conns && x in h'.conns ==> h'.conns[x].sent == h.conns[x].sent + news
  }

  lemma HeardThen(h: HubState, h1: HubState, h2: HubState, x: ConnId, a: seq<Msg>, b: seq<Msg>)
    requires Heard(h, h1, x, a) && Heard(h1, h2, x, b) && h1.conns.Keys == h.conns.Keys
    ensures Heard(h, h2, x, a + b)
  {
  }

  function OneCopy(addressed: bool, m: Msg): seq<Msg> {
    if addressed then [m] else []
  }

  lemma SendTellsOne(h: HubState, c: ConnId, m: Msg)
    requires !Send(h, c, m).dropped
    ensures Heard(h, Send(h, c, m), c, [m])
    ensures forall x :: x != c ==> Heard(h, Send(h, c, m), x, [])
  {
  }

  /** Every addressee hears the message once, as long as no identifier repeats, and nobody else hears it. */
  lemma {:induction false} SendAllTellsEach(h: HubState, ids: seq<ConnId>, m: Msg)
    requires NoDuplicates(ids) && !SendAll(h, ids, m).dropped
    ensures forall x :: Heard(h, SendAll(h, ids, m), x, OneCopy(x in ids, m))
    decreases |ids|
  {
    hide Send;
    if ids != [] {
      var front, last := ids[..|ids| - 1], ids[|ids| - 1];
      assert ids == front + [last];
      var h1 := SendAll(h, front, m);
      SendIsQuiet(h1, last, m);
      SendAllTellsEach(h, front, m);
      SendTellsOne(h1, last, m);
      SendAllIsQuiet(h, front, m);
      forall x
        ensures Heard(h, SendAll(h, ids, m), x, OneCopy(x in ids, m))
      {
        assert Heard(h, h1, x, OneCopy(x in front, m));
        assert Heard(h1, Send(h1, last, m), x, OneCopy(x == last, m));
        assert last !in front;
      }
    }
  }

  lemma OthersDistinct(s: SlotValue, c: ConnId)
    requires s.initiator !in s.peers && NoDuplicates(s.peers)
    ensures NoDuplicates(OtherMembers(s, c))
  {
    WithoutKeepsDistinct(s.peers, c);
    assert s.initiator !in Without(s.peers, c);
  }

  lemma {:induction false} WithoutCounts(ids: seq<ConnId>, c: ConnId)
    requires NoDuplicates(ids) && c in ids
    ensures |Without(ids, c)| == |ids| - 1
  {
    var front, last := ids[..|ids| - 1], ids[|ids| - 1];
    assert ids == front + [last];
    if last != c {
      WithoutCounts(front, c);
    }
  }

  // ---------------------------------------------------------------- joining

  /** What each connection hears when c joins s, whose n-th member it is. */
  function JoinNews(s: SlotValue, c: ConnId, x: ConnId): seq<Msg> {
    var n := 2 + |s.peers|;
    if x == c then [SlotReady(Responder, n, s.maxPeers)]
    else if x == s.initiator then
      [PeerJoined(c, n, s.maxPeers)] + if s.peers == [] then [SlotReady(Initiator, n, s.maxPeers)] else []
    else if x in s.peers then [PeerJoined(c, n, s.maxPeers)]
    else []
  }

  /** The notices in order of sending: the joiner, the initiator, the rest, and once more the initiator of a first peer. */
  lemma NoticesInOrder(h: HubState, c: ConnId, s: SlotValue, others: seq<ConnId>, x: ConnId)
    requires NoDuplicates(others) && !NotifyJoined(h, c, s, others).dropped
    ensures var n := ConnectedCount(s);
            var joined := PeerJoined(c, n, s.maxPeers);
            Heard(h, NotifyJoined(h, c, s, others), x,
                  OneCopy(x == c, SlotReady(Responder, n, s.maxPeers)) + OneCopy(x == s.initiator, joined)
                  + OneCopy(x in others && x != s.initiator, joined)
                  + OneCopy(x == s.initiator && |s.peers| == 1, SlotReady(Initiator, n, s.maxPeers)))
  {
    hide Send, SendAll, NoDuplicates, OthersUntouched, LastSent, Heard;
    var n := ConnectedCount(s);
    var ready, m, first := SlotReady(Responder, n, s.maxPeers), PeerJoined(c, n, s.maxPeers), SlotReady(Initiator, n, s.maxPeers);
    var rest := Without(others, s.initiator);
    var h1 := Send(h, c, ready);
    var h2 := Send(h1, s.initiator, m);
    var h3 := SendAll(h2, rest, m);
    var h4 := Send(h3, s.initiator, first);
    SendIsQuiet(h, c, ready);
    SendIsQuiet(h1, s.initiator, m);
    SendAllIsQuiet(h2, rest, m);
    SendIsQuiet(h3, s.initiator, first);
    SendTellsOne(h, c, ready);
    SendTellsOne(h1, s.initiator, m);
    HeardThen(h, h1, h2, x, OneCopy(x == c, ready), OneCopy(x == s.initiator, m));
    WithoutKeepsDistinct(others, s.initiator);
    SendAllTellsEach(h2, rest, m);
    var soFar := OneCopy(x == c, ready) + OneCopy(x == s.initiator, m);
    HeardThen(h, h2, h3, x, soFar, OneCopy(x in rest, m));
    if |s.peers| == 1 {
      SendTellsOne(h3, s.initiator, first);
      HeardThen(h, h3, h4, x, soFar + OneCopy(x in rest, m), OneCopy(x == s.initiator, first));
    } else {
      assert soFar + OneCopy(x in rest, m) + [] == soFar + OneCopy(x in rest, m);
    }
  }

  lemma NotifyTellsEach(h: HubState, c: ConnId, s: SlotValue)
    requires c in h.conns && !IsMember(s, c) && s.initiator !in s.peers && NoDuplicates(s.peers)
    requires !NotifyJoined(h, c, WithPeer(s, c), OtherMembers(s, c)).dropped
    ensures forall x :: Heard(h, NotifyJoined(h, c, WithPeer(s, c), OtherMembers(s, c)), x, JoinNews(s, c, x))
  {
    hide WithPeer, OtherMembers, NotifyJoined, Heard;
    JoinedSlot(s, c);
    OthersDistinct(s, c);
    var s' := WithPeer(s, c);
    var n := ConnectedCount(s');
    var m := PeerJoined(c, n, s.maxPeers);
    forall x
      ensures Heard(h, NotifyJoined(h, c, s', OtherMembers(s, c)), x, JoinNews(s, c, x))
    {
      NoticesInOrder(h, c, s', OtherMembers(s, c), x);
      assert JoinNews(s, c, x)
          == OneCopy(x == c, SlotReady(Responder, n, s.maxPeers)) + OneCopy(x == s.initiator, m)
             + OneCopy(x in OtherMembers(s, c) && x != s.initiator, m)
             + OneCopy(x == s.initiator && |s'.peers| == 1, SlotReady(Initiator, n, s.maxPeers));
    }
  }

  /** A successful join tells the joiner it is ready, the others that it came, and the initiator of the first peer both. */
  lemma JoinAnnounced(h: HubState, c: ConnId, req: JoinRequest, now: int)
    requires Agrees(h) && OneSlot(h, JoinMsg(c, req, now)) && Succeeds(h, JoinMsg(c, req, now))
    requires !Join(h, c, req, now).dropped
    ensures forall x :: Heard(h, Join(h, c, req, now), x, JoinNews(h.slots[h.codes[req.code]], c, x))
  {
    hide Admit, NoDuplicates, SlotOk, IndexOk, Join, Heard, JoinNews;
    var s := h.slots[h.codes[req.code]];
    JoinShape(h, c, req, now);
    assert !IsMember(s, c);
    AdmitKeepsAgreement(h, c, s);
    AdmitAnnounced(h, c, s);
  }

  lemma AdmitAnnounced(h: HubState, c: ConnId, s: SlotValue)
    requires c in h.conns && s.initiator in h.conns && !Admit(h, c, s).dropped
    requires !IsMember(s, c) && s.initiator !in s.peers && NoDuplicates(s.peers)
    ensures forall x :: Heard(h, Admit(h, c, s), x, JoinNews(s, c, x))
  {
    hide NotifyJoined, OtherMembers, WithPeer, NoDuplicates, JoinNews;
    var h1 := StoreUpdate(h, WithPeer(s, c)).(conns := h.conns[c := h.conns[c].(slotId := Some(s.id))]);
    NotifyTellsEach(h1, c, s);
    forall x
      ensures Heard(h, Admit(h, c, s), x, JoinNews(s, c, x))
    {
      assert Heard(h1, Admit(h, c, s), x, JoinNews(s, c, x));
    }
  }

  // ---------------------------------------------------------------- leaving

  /** The slot c is in, when it is stored. */
  function SlotOf(h: HubState, c: ConnId): Option<SlotValue>
    requires c in h.conns
  {
    if h.conns[c].slotId.Some? && h.conns[c].slotId.value in h.slots then Some(h.slots[h.conns[c].slotId.value]) else None
  }

  /** What each remaining connection hears when c is gone; a member that had said bye already no longer changes the count. */
  function LeaveNews(s: Option<SlotValue>, c: ConnId, x: ConnId): seq<Msg> {
    if s.Some? && IsMember(s.value, x) && x != c then
      [PeerLeft(c, if c in s.value.peers then |s.value.peers| else 1 + |s.value.peers|, s.value.maxPeers)]
    else []
  }

  /** A disconnect tells each remaining member once, with the count of those left, and nobody else anything. */
  lemma DisconnectAnnounced(h: HubState, c: ConnId)
    requires Agrees(h) && c in h.conns && !Disconnect(h, c).dropped
    ensures forall x :: Heard(h, Disconnect(h, c), x, LeaveNews(SlotOf(h, c), c, x))
  {
    hide SendAll, WithoutPeer, OtherMembers, NoDuplicates, SlotOk, IndexOk, Disconnect, LeaveNews;
    var own, h' := SlotOf(h, c), Disconnect(h, c);
    DisconnectShape(h, c);
    if own.Some? {
      assert MembersLive(h, own.value);
      var h1 := h.(conns := h.conns - {c});
      LeaverNotice(h, c);
      DepartureTold(h1, c, own.value);
      forall x
        ensures Heard(h, h', x, LeaveNews(own, c, x))
      {
        assert Heard(h1, Departure(h1, c, own.value), x, LeaveNews(own, c, x));
      }
    } else {
      LoneDisconnect(h, c);
    }
  }

  /** The notices of a departure, sent to whoever is left in the slot. */
  function Departure(h: HubState, c: ConnId, s: SlotValue): HubState {
    var s' := WithoutPeer(s, c);
    SendAll(h, OtherMembers(s', c), PeerLeft(c, ConnectedCount(s'), s'.maxPeers))
  }

  lemma DepartureTold(h: HubState, c: ConnId, s: SlotValue)
    requires s.initiator !in s.peers && NoDuplicates(s.peers)
    requires !Departure(h, c, s).dropped
    ensures forall x :: Heard(h, Departure(h, c, s), x, LeaveNews(Some(s), c, x))
  {
    hide SendAll, WithoutPeer, OtherMembers, NoDuplicates, Heard;
    var s' := WithoutPeer(s, c);
    ShrunkSlot(s, c);
    if c in s.peers {
      WithoutCounts(s.peers, c);
    }
    OthersDistinct(s', c);
    var m := PeerLeft(c, ConnectedCount(s'), s'.maxPeers);
    SendAllTellsEach(h, OtherMembers(s', c), m);
    forall x
      ensures Heard(h, Departure(h, c, s), x, LeaveNews(Some(s), c, x))
    {
      assert LeaveNews(Some(s), c, x) == OneCopy(x in OtherMembers(s', c), m);
    }
  }

  lemma LoneDisconnect(h: HubState, c: ConnId)
    requires c in h.conns && SlotOf(h, c).None?
    ensures forall x :: Heard(h, Disconnect(h, c), x, LeaveNews(None, c, x))
  {
  }

  // ---------------------------------------------------------------- saying bye

  /** A bye is passed on once to every other member of the sender's slot, and changes no other queue. */
  lemma ByeAnnounced(h: HubState, c: ConnId)
    requires Agrees(h) && c in h.conns && !SayBye(h, c).dropped
    ensures forall x :: Heard(h, SayBye(h, c), x,
                              OneCopy(SlotOf(h, c).Some? && IsMember(SlotOf(h, c).value, x) && x != c, Bye))
  {
    hide SendAll, OtherMembers, NoDuplicates, SlotOk, IndexOk, SayBye, Heard, OneCopy;
    var own := SlotOf(h, c);
    if own.Some? {
      assert MembersLive(h, own.value);
      var others := OtherMembers(own.value, c);
      OthersDistinct(own.value, c);
      ByeNotice(h, c);
      SendAllTellsEach(h, others, Bye);
      forall x
        ensures Heard(h, SayBye(h, c), x, OneCopy(IsMember(own.value, x) && x != c, Bye))
      {
        assert Heard(h, SendAll(h, others, Bye), x, OneCopy(x in others, Bye));
        SameQueues(h, SendAll(h, others, Bye), SayBye(h, c), x, OneCopy(x in others, Bye));
      }
    } else {
      LoneBye(h, c);
    }
  }

  lemma ByeNotice(h: HubState, c: ConnId)
    requires c in h.conns && SlotOf(h, c).Some?
    ensures var h' := SendAll(h, OtherMembers(SlotOf(h, c).value, c), Bye);
            SayBye(h, c).conns == h'.conns && SayBye(h, c).dropped == h'.dropped
  {
    hide SendAll, WithoutPeer, OtherMembers;
  }

  lemma SameQueues(h: HubState, h1: HubState, h2: HubState, x: ConnId, news: seq<Msg>)
    requires h1.conns == h2.conns && Heard(h, h1, x, news)
    ensures Heard(h, h2, x, news)
  {
  }

  lemma LoneBye(h: HubState, c: ConnId)
    requires c in h.conns && SlotOf(h, c).None?
    ensures forall x :: Heard(h, SayBye(h, c), x, OneCopy(false, Bye))
  {
  }
}
