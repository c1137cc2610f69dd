/**
 * The signaling hub: one loop owning connections and slots. Each handler is a method of Broker verified
 * against a step function on the hub's state; the slot store is the in-memory one.
 */
module Hub {
  import opened Prelude
  import opened Slots

  const SEND_BUFFER := 16
  const MAX_FAILED_JOINS := 5
  const MAX_CODE_ATTEMPTS := 5

  datatype Role = Initiator | Responder

  datatype ErrorCode =
    | BadPayload | VersionMismatch | Internal | InvalidCode | SlotNotFound | SlotExpired | IsFull | IsClosed
    | NotInSlot | PeerGone | TooManyAttempts | UnknownType

  /** Frames the hub queues for a connection; an opaque relayed envelope is only carried. */
  datatype Msg =
    | SlotCreated(slotId: SlotId, code: Code, maxPeers: int)
    | SlotReady(role: Role, count: nat, maxPeers: int)
    | PeerJoined(peer: ConnId, count: nat, maxPeers: int)
    | PeerLeft(peer: ConnId, count: nat, maxPeers: int)
    | Bye
    | Forwarded(envelope: Envelope)
    | Error(error: ErrorCode)

  datatype Envelope = Direct(body: Bytes) | Targeted(target: Option<ConnId>, body: Bytes)

  /** slotId is None until a create or join succeeds; the send queue holds sent[drained..]. */
  datatype Conn = Conn(slotId: Option<SlotId>, failedJoins: nat, sent: seq<Msg>, drained: nat)

  datatype HubState = HubState(
    conns: map<ConnId, Conn>, slots: map<SlotId, SlotValue>, codes: map<Code, SlotId>, dropped: bool)

  // ---------------------------------------------------------------- queues

  predicate QueueFull(k: Conn) {
    |k.sent| - k.drained >= SEND_BUFFER
  }

  /** Queue a frame for c if it is connected; a full queue drops it. */
  function Send(h: HubState, c: ConnId, m: Msg): HubState {
    if c !in h.conns then h
    else if QueueFull(h.conns[c]) then h.(dropped := true)
    else h.(conns := h.conns[c := h.conns[c].(sent := h.conns[c].sent + [m])])
  }

  function SendAll(h: HubState, ids: seq<ConnId>, m: Msg): HubState {
    if ids == [] then h else Send(SendAll(h, ids[..|ids| - 1], m), ids[|ids| - 1], m)
  }

  // ---------------------------------------------------------------- the in-memory store

  function StoreUpdate(h: HubState, s: SlotValue): HubState {
    h.(slots := h.slots[s.id := s])
  }

  function StoreDelete(h: HubState, id: SlotId): HubState {
    h.(slots := h.slots - {id}, codes := if id in h.slots then h.codes - {h.slots[id].code} else h.codes)
  }

  // ---------------------------------------------------------------- handlers

  function Disconnect(h: HubState, c: ConnId): HubState {
    if c !in h.conns then h
    else
      var h1 := h.(conns := h.conns - {c});
      if h.conns[c].slotId.None? || h.conns[c].slotId.value !in h.slots then h1
      else
        var s := WithoutPeer(h.slots[h.conns[c].slotId.value], c);
        var h2 := SendAll(h1, OtherMembers(s, c), PeerLeft(c, ConnectedCount(s), s.maxPeers));
        if c == s.initiator || ConnectedCount(s) == 0 then StoreDelete(h2, h.conns[c].slotId.value)
        else StoreUpdate(h2, s)
  }

  datatype CreateRequest = Malformed | CreateWith(versionOk: bool, maxPeers: int)

  /** attempts are the fresh identifiers and codes drawn for this request, at most five. */
  function FirstFree(codes: map<Code, SlotId>, attempts: seq<(SlotId, Code)>): Option<(SlotId, Code)> {
    if attempts == [] then None
    else if attempts[0].1 !in codes then Some(attempts[0])
    else FirstFree(codes, attempts[1..])
  }

  function Create(h: HubState, c: ConnId, req: CreateRequest, attempts: seq<(SlotId, Code)>, now: int): HubState
    requires c in h.conns
  {
    if req.Malformed? then Send(h, c, Error(BadPayload))
    else if !req.versionOk then Send(h, c, Error(VersionMismatch))
    else
      match FirstFree(h.codes, attempts)
      case None => Send(h, c, Error(Internal))
      case Some((id, code)) =>
        var s := Fresh(id, code, c, req.maxPeers, now);
        var h1 := h.(slots := h.slots[id := s], codes := h.codes[code := id],
                     conns := h.conns[c := h.conns[c].(slotId := Some(id))]);
        Send(h1, c, SlotCreated(id, code, s.maxPeers))
  }

  datatype JoinRequest = MalformedJoin | JoinWith(versionOk: bool, code: Code, codeWellFormed: bool)

  function FailJoin(h: HubState, c: ConnId, e: ErrorCode): HubState
    requires c in h.conns
  {
    var h1 := Send(h, c, Error(e));
    var k := h1.conns[c].(failedJoins := h1.conns[c].failedJoins + 1);
    var h2 := h1.(conns := h1.conns[c := k]);
    if k.failedJoins >= MAX_FAILED_JOINS then Send(h2, c, Error(TooManyAttempts)) else h2
  }

  /** slot.ready to the joiner, peer.joined to everybody else, and slot.ready to the initiator for the first peer. */
  function NotifyJoined(h: HubState, c: ConnId, s: SlotValue, others: seq<ConnId>): HubState {
    var n := ConnectedCount(s);
    var h1 := Send(h, c, SlotReady(Responder, n, s.maxPeers));
    var h2 := Send(h1, s.initiator, PeerJoined(c, n, s.maxPeers));
    var h3 := SendAll(h2, Without(others, s.initiator), PeerJoined(c, n, s.maxPeers));
    if |s.peers| == 1 then Send(h3, s.initiator, SlotReady(Initiator, n, s.maxPeers)) else h3
  }

  function Join(h: HubState, c: ConnId, req: JoinRequest, now: int): HubState
    requires c in h.conns
  {
    if req.MalformedJoin? then Send(h, c, Error(BadPayload))
    else if !req.versionOk then Send(h, c, Error(VersionMismatch))
    else if !req.codeWellFormed then FailJoin(h, c, InvalidCode)
    else if req.code !in h.codes || h.codes[req.code] !in h.slots then FailJoin(h, c, SlotNotFound)
    else
      var s := h.slots[h.codes[req.code]];
      if now > s.expiresAt then Send(StoreDelete(h, s.id), c, Error(SlotExpired))
      else if JoinRefusal(s).Some? then
        Send(h, c, Error(if JoinRefusal(s).value.SlotFull? then IsFull else IsClosed))
      else Admit(h, c, s)
  }

  function Admit(h: HubState, c: ConnId, s: SlotValue): HubState
    requires c in h.conns
  {
    var s' := WithPeer(s, c);
    var h1 := StoreUpdate(h, s').(conns := h.conns[c := h.conns[c].(slotId := Some(s.id))]);
    if s.initiator !in h.conns then StoreDelete(Send(h1, c, Error(PeerGone)), s.id)
    else NotifyJoined(h1, c, s', OtherMembers(s, c))
  }

  function Relay(h: HubState, c: ConnId, e: Envelope): HubState
    requires c in h.conns
  {
    var id := h.conns[c].slotId;
    if id.None? then Send(h, c, Error(NotInSlot))
    else if id.value !in h.slots then Send(h, c, Error(SlotNotFound))
    else
      var s := h.slots[id.value];
      if e.Targeted? then
        if e.target.None? then Send(h, c, Error(BadPayload))
        else if IsMember(s, e.target.value) then Send(h, e.target.value, Forwarded(e))
        else h
      else if c == s.initiator && s.peers == [] then Send(h, c, Error(PeerGone))
      else
        var target := if c == s.initiator then s.peers[0] else s.initiator;
        if target !in h.conns then Send(h, c, Error(PeerGone)) else Send(h, target, Forwarded(e))
  }

  function SayBye(h: HubState, c: ConnId): HubState
    requires c in h.conns
  {
    var id := h.conns[c].slotId;
    if id.None? || id.value !in h.slots then h
    else
      var h1 := SendAll(h, OtherMembers(h.slots[id.value], c), Bye);
      var s := WithoutPeer(h.slots[id.value], c);
      if c == s.initiator || ConnectedCount(s) == 0 then StoreDelete(h1, id.value) else StoreUpdate(h1, s)
  }

  // ---------------------------------------------------------------- MemStore and Broker as objects

  class MemStore {
    var slots: map<SlotId, SlotValue>
    var codes: map<Code, SlotId>

    constructor ()
      ensures slots == map[] && codes == map[]
    {
      slots, codes := map[], map[];
    }

    method Create(s: SlotValue) returns (taken: bool)
      modifies this
      ensures taken <==> s.code in old(codes)
      ensures taken ==> slots == old(slots) && codes == old(codes)
      ensures !taken ==> slots == old(slots)[s.id := s] && codes == old(codes)[s.code := s.id]
    {
      if s.code in codes {
        return true;
      }
      slots := slots[s.id := s];
      codes := codes[s.code := s.id];
      return false;
    }

    method Update(s: SlotValue)
      modifies this
      ensures slots == old(slots)[s.id := s] && codes == old(codes)
    {
      slots := slots[s.id := s];
    }

    method Delete(id: SlotId)
      modifies this
      ensures slots == old(slots) - {id}
      ensures codes == if id in old(slots) then old(codes) - {old(slots)[id].code} else old(codes)
    {
      if id in slots {
        codes := codes - {slots[id].code};
      }
      slots := slots - {id};
    }

    method GetByID(id: SlotId) returns (r: Option<SlotValue>)
      ensures r == if id in slots then Some(slots[id]) else None
    {
      return if id in slots then Some(slots[id]) else None;
    }

    method GetByCode(code: Code) returns (r: Option<SlotValue>)
      ensures r == if code in codes && codes[code] in slots then Some(slots[codes[code]]) else None
    {
      if code !in codes {
        return None;
      }
      r := GetByID(codes[code]);
    }
  }

  class Broker {
    const store: MemStore
    var conns: map<ConnId, Conn>
    ghost var dropped: bool

    ghost function Abs(): HubState
      reads this, store
    {
      HubState(conns, store.slots, store.codes, dropped)
    }

    constructor (store: MemStore)
      ensures this.store == store && conns == map[] && !dropped
    {
      this.store, conns, dropped := store, map[], false;
    }

    method Enqueue(c: ConnId, m: Msg)
      modifies this
      ensures Abs() == Send(old(Abs()), c, m)
    {
      if c in conns {
        if QueueFull(conns[c]) {
          dropped := true;
        } else {
          conns := conns[c := conns[c].(sent := conns[c].sent + [m])];
        }
      }
    }

    method EnqueueAll(ids: seq<ConnId>, m: Msg)
      modifies this
      ensures Abs() == SendAll(old(Abs()), ids, m)
    {
      for i := 0 to |ids|
        invariant Abs() == SendAll(old(Abs()), ids[..i], m)
      {
        assert ids[..i + 1][..i] == ids[..i];
        Enqueue(ids[i], m);
      }
      assert ids[..|ids|] == ids;
    }

    method HandleDisconnect(c: ConnId)
      modifies this, store
      ensures Abs() == Disconnect(old(Abs()), c)
    {
      hide SendAll, OtherMembers, WithoutPeer;
      if c !in conns {
        return;
      }
      var k := conns[c];
      conns := conns - {c};
      if k.slotId.None? {
        return;
      }
      var found := store.GetByID(k.slotId.value);
      if found.None? {
        return;
      }
      var sl := new Slot.Load(found.value);
      sl.RemovePeer(c);
      var s := sl.Abs();
      EnqueueAll(OtherMembers(s, c), PeerLeft(c, ConnectedCount(s), s.maxPeers));
      if c == s.initiator || ConnectedCount(s) == 0 {
        sl.Close();
        store.Delete(k.slotId.value);
      } else {
        store.Update(s);
      }
    }

    method HandleSlotCreate(c: ConnId, req: CreateRequest, attempts: seq<(SlotId, Code)>, now: int)
      requires c in conns && |attempts| <= MAX_CODE_ATTEMPTS
      modifies this, store
      ensures Abs() == Create(old(Abs()), c, req, attempts, now)
    {
      hide Send;
      if req.Malformed? {
        Enqueue(c, Error(BadPayload));
        return;
      }
      if !req.versionOk {
        Enqueue(c, Error(VersionMismatch));
        return;
      }
      var maxPeers := req.maxPeers;
      if maxPeers < 2 {
        maxPeers := DEFAULT_MAX_PEERS;
      }
      if maxPeers > MAX_ALLOWED_PEERS {
        maxPeers := MAX_ALLOWED_PEERS;
      }
      var made := CreateSlot(c, maxPeers, attempts, now);
      if made.None? {
        Enqueue(c, Error(Internal));
        return;
      }
      conns := conns[c := conns[c].(slotId := Some(made.value.id))];
      Enqueue(c, SlotCreated(made.value.id, made.value.code, made.value.maxPeers));
    }

    /** Draws codes until one is free. */
    method CreateSlot(c: ConnId, maxPeers: int, attempts: seq<(SlotId, Code)>, now: int) returns (r: Option<SlotValue>)
      modifies store
      ensures var f := FirstFree(old(store.codes), attempts);
              r == if f.None? then None else Some(Fresh(f.value.0, f.value.1, c, maxPeers, now))
      ensures r.None? ==> store.slots == old(store.slots) && store.codes == old(store.codes)
      ensures r.Some? ==>
                && store.slots == old(store.slots)[r.value.id := r.value]
                && store.codes == old(store.codes)[r.value.code := r.value.id]
    {
      for i := 0 to |attempts|
        invariant store.slots == old(store.slots) && store.codes == old(store.codes)
        invariant FirstFree(old(store.codes), attempts) == FirstFree(old(store.codes), attempts[i..])
      {
        var sl := new Slot(attempts[i].0, attempts[i].1, c, maxPeers, now);
        var s := sl.Abs();
        var taken := store.Create(s);
        assert attempts[i..][1..] == attempts[i + 1..];
        if !taken {
          return Some(s);
        }
      }
      return None;
    }

    method RecordFailedJoin(c: ConnId, e: ErrorCode)
      requires c in conns
      modifies this
      ensures Abs() == FailJoin(old(Abs()), c, e)
    {
      Enqueue(c, Error(e));
      conns := conns[c := conns[c].(failedJoins := conns[c].failedJoins + 1)];
      if conns[c].failedJoins >= MAX_FAILED_JOINS {
        Enqueue(c, Error(TooManyAttempts));
      }
    }

    method HandleSlotJoin(c: ConnId, req: JoinRequest, now: int)
      requires c in conns
      modifies this, store
      ensures Abs() == Join(old(Abs()), c, req, now)
    {
      hide Send, FailJoin, Admit, WithPeer;
      if req.MalformedJoin? {
        Enqueue(c, Error(BadPayload));
        return;
      }
      if !req.versionOk {
        Enqueue(c, Error(VersionMismatch));
        return;
      }
      if !req.codeWellFormed {
        RecordFailedJoin(c, InvalidCode);
        return;
      }
      var found := store.GetByCode(req.code);
      if found.None? {
        RecordFailedJoin(c, SlotNotFound);
        return;
      }
      var s := found.value;
      if now > s.expiresAt {
        store.Delete(s.id);
        Enqueue(c, Error(SlotExpired));
        return;
      }
      var sl := new Slot.Load(s);
      var err := sl.Join(c);
      if err.Some? {
        Enqueue(c, Error(if err.value.SlotFull? then IsFull else IsClosed));
        return;
      }
      FinishJoin(c, s, sl);
    }

    method FinishJoin(c: ConnId, s: SlotValue, sl: Slot)
      requires c in conns && sl.Abs() == WithPeer(s, c)
      modifies this, store
      ensures Abs() == Admit(old(Abs()), c, s)
    {
      hide Send, OtherMembers, NotifyJoined;
      var joined := sl.Abs();
      store.Update(joined);
      conns := conns[c := conns[c].(slotId := Some(s.id))];
      if s.initiator !in conns {
        Enqueue(c, Error(PeerGone));
        store.Delete(s.id);
        return;
      }
      NotifyJoinedPeers(c, joined, OtherMembers(s, c));
    }

    method NotifyJoinedPeers(c: ConnId, s: SlotValue, others: seq<ConnId>)
      modifies this
      ensures Abs() == NotifyJoined(old(Abs()), c, s, others)
    {
      hide Send, SendAll, Without;
      var n := ConnectedCount(s);
      Enqueue(c, SlotReady(Responder, n, s.maxPeers));
      Enqueue(s.initiator, PeerJoined(c, n, s.maxPeers));
      EnqueueAll(Without(others, s.initiator), PeerJoined(c, n, s.maxPeers));
      if |s.peers| == 1 {
        Enqueue(s.initiator, SlotReady(Initiator, n, s.maxPeers));
      }
    }

    method RelayMessage(c: ConnId, e: Envelope)
      requires c in conns
      modifies this
      ensures Abs() == Relay(old(Abs()), c, e)
    {
      hide Send;
      var id := conns[c].slotId;
      if id.None? {
        Enqueue(c, Error(NotInSlot));
        return;
      }
      var found := store.GetByID(id.value);
      if found.None? {
        Enqueue(c, Error(SlotNotFound));
        return;
      }
      var s := found.value;
      if e.Targeted? {
        if e.target.None? {
          Enqueue(c, Error(BadPayload));
        } else if IsMember(s, e.target.value) {
          Enqueue(e.target.value, Forwarded(e));
        }
        return;
      }
      if c == s.initiator && s.peers == [] {
        Enqueue(c, Error(PeerGone));
        return;
      }
      var target := if c == s.initiator then s.peers[0] else s.initiator;
      if target !in conns {
        Enqueue(c, Error(PeerGone));
        return;
      }
      Enqueue(target, Forwarded(e));
    }

    method HandleBye(c: ConnId)
      requires c in conns
      modifies this, store
      ensures Abs() == SayBye(old(Abs()), c)
    {
      hide SendAll, OtherMembers, WithoutPeer;
      var id := conns[c].slotId;
      if id.None? {
        return;
      }
      var found := store.GetByID(id.value);
      if found.None? {
        return;
      }
      EnqueueAll(OtherMembers(found.value, c), Bye);
      var sl := new Slot.Load(found.value);
      sl.RemovePeer(c);
      var s := sl.Abs();
      if c == s.initiator || ConnectedCount(s) == 0 {
        sl.Close();
        store.Delete(id.value);
      } else {
        store.Update(s);
      }
    }
  }

  // ---------------------------------------------------------------- runs

  datatype Event =
    | Register(c: ConnId)
    | Unregister(c: ConnId)
    | CreateMsg(c: ConnId, create: CreateRequest, attempts: seq<(SlotId, Code)>, now: int)
    | JoinMsg(c: ConnId, join: JoinRequest, now: int)
    | RelayMsg(c: ConnId, envelope: Envelope)
    | ByeMsg(c: ConnId)
    | PongMsg(c: ConnId)
    | UnknownMsg(c: ConnId)
    | Drain(c: ConnId)  // writePump sends the oldest queued frame

  /** Events of a connection arrive in the order register, messages, unregister; identifiers drawn are new. */
  predicate Possible(h: HubState, e: Event) {
    match e
    case Register(c) => c !in h.conns
    case Unregister(c) => true
    case CreateMsg(c, _, attempts, _) =>
      && c in h.conns && |attempts| <= MAX_CODE_ATTEMPTS
      && forall i :: 0 <= i < |attempts| ==> attempts[i].0 !in h.slots
    case Drain(c) => c in h.conns && h.conns[c].drained < |h.conns[c].sent|
    case _ => e.c in h.conns
  }

  function Step(h: HubState, e: Event): HubState
    requires Possible(h, e)
  {
    match e
    case Register(c) => h.(conns := h.conns[c := Conn(None, 0, [], 0)])
    case Unregister(c) => Disconnect(h, c)
    case CreateMsg(c, req, attempts, now) => Create(h, c, req, attempts, now)
    case JoinMsg(c, req, now) => Join(h, c, req, now)
    case RelayMsg(c, env) => Relay(h, c, env)
    case ByeMsg(c) => SayBye(h, c)
    case PongMsg(c) => h
    case UnknownMsg(c) => Send(h, c, Error(UnknownType))
    case Drain(c) => h.(conns := h.conns[c := h.conns[c].(drained := h.conns[c].drained + 1)])
  }

  predicate Runs(h: HubState, es: seq<Event>)
    decreases |es|
  {
    es == [] || (Possible(h, es[0]) && Runs(Step(h, es[0]), es[1..]))
  }

  function Exec(h: HubState, es: seq<Event>): HubState
    requires Runs(h, es)
    decreases |es|
  {
    if es == [] then h else Exec(Step(h, es[0]), es[1..])
  }

  const START := HubState(map[], map[], map[], false)
}
