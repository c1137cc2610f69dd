/** A rendezvous slot: who created it, who joined, and whether it still takes peers. */
module Slots {
  import opened Prelude

  type ConnId = Bytes
  type SlotId = Bytes
  type Code = Bytes

  const DEFAULT_MAX_PEERS := 2
  const MAX_ALLOWED_PEERS := 10
  const DEFAULT_TTL := 600

  datatype Lifecycle = Waiting | Active | Full | Closed

  datatype SlotValue = SlotValue(
    id: SlotId, code: Code, state: Lifecycle, expiresAt: int,
    initiator: ConnId, peers: seq<ConnId>, maxPeers: int, everFull: bool)

  datatype JoinError = SlotFull | SlotClosed

  function ClampPeers(n: int): (m: int)
    ensures 2 <= m <= MAX_ALLOWED_PEERS
  {
    if n < 2 then DEFAULT_MAX_PEERS else if n > MAX_ALLOWED_PEERS then MAX_ALLOWED_PEERS else n
  }

  function Fresh(id: SlotId, code: Code, initiator: ConnId, maxPeers: int, now: int): SlotValue {
    SlotValue(id, code, Waiting, now + DEFAULT_TTL, initiator, [], ClampPeers(maxPeers), false)
  }

  function ConnectedCount(s: SlotValue): nat {
    1 + |s.peers|
  }

  predicate CanJoin(s: SlotValue) {
    !s.state.Closed? && !s.state.Full? && !s.everFull && ConnectedCount(s) < s.maxPeers
  }

  function JoinRefusal(s: SlotValue): Option<JoinError> {
    if CanJoin(s) then None else if s.state.Closed? then Some(SlotClosed) else Some(SlotFull)
  }

  function WithPeer(s: SlotValue, p: ConnId): SlotValue {
    var s' := s.(peers := s.peers + [p]);
    if ConnectedCount(s') >= s.maxPeers then s'.(state := Full, everFull := true) else s'.(state := Active)
  }

  function Without(ids: seq<ConnId>, c: ConnId): (r: seq<ConnId>)
    ensures |r| <= |ids|
    ensures forall x :: x in r <==> x in ids && x != c
    ensures c !in ids ==> r == ids
  {
    if ids == [] then []
    else
      var last := ids[|ids| - 1];
      var r := Without(ids[..|ids| - 1], c);
      assert ids == ids[..|ids| - 1] + [last];
      if last == c then r else r + [last]
  }

  function WithoutPeer(s: SlotValue, c: ConnId): SlotValue {
    var s' := s.(peers := Without(s.peers, c));
    if !s.everFull && ConnectedCount(s') < s.maxPeers then
      s'.(state := if s'.peers == [] then Waiting else Active)
    else s'
  }

  predicate IsMember(s: SlotValue, c: ConnId) {
    c == s.initiator || c in s.peers
  }

  function OtherMembers(s: SlotValue, c: ConnId): (r: seq<ConnId>)
    ensures forall x :: x in r <==> IsMember(s, x) && x != c
  {
    (if s.initiator != c then [s.initiator] else []) + Without(s.peers, c)
  }

  class Slot {
    const id: SlotId
    const code: Code
    const expiresAt: int
    const initiator: ConnId
    const maxPeers: int
    var state: Lifecycle
    var peers: seq<ConnId>
    var everFull: bool

    function Abs(): SlotValue
      reads this
    {
      SlotValue(id, code, state, expiresAt, initiator, peers, maxPeers, everFull)
    }

    constructor (id: SlotId, code: Code, initiator: ConnId, maxPeers: int, now: int)
      ensures Abs() == Fresh(id, code, initiator, maxPeers, now)
    {
      this.id, this.code, this.initiator, this.expiresAt := id, code, initiator, now + DEFAULT_TTL;
      this.maxPeers := ClampPeers(maxPeers);
      state, peers, everFull := Waiting, [], false;
    }

    /** A slot object with a stored value, as the store hands it out. */
    constructor Load(v: SlotValue)
      ensures Abs() == v
    {
      id, code, initiator, expiresAt, maxPeers := v.id, v.code, v.initiator, v.expiresAt, v.maxPeers;
      state, peers, everFull := v.state, v.peers, v.everFull;
    }

    method Join(p: ConnId) returns (err: Option<JoinError>)
      modifies this
      ensures err == JoinRefusal(old(Abs()))
      ensures Abs() == if err.None? then WithPeer(old(Abs()), p) else old(Abs())
    {
      if !CanJoin(Abs()) {
        if state.Closed? {
          return Some(SlotClosed);
        }
        return Some(SlotFull);
      }
      peers := peers + [p];
      if 1 + |peers| >= maxPeers {
        state := Full;
        everFull := true;
      } else {
        state := Active;
      }
      return None;
    }

    method RemovePeer(c: ConnId)
      modifies this
      ensures Abs() == WithoutPeer(old(Abs()), c)
    {
      var filtered: seq<ConnId> := [];
      for i := 0 to |peers|
        invariant filtered == Without(peers[..i], c)
        invariant unchanged(this)
      {
        assert peers[..i + 1][..i] == peers[..i];
        if peers[i] != c {
          filtered := filtered + [peers[i]];
        }
      }
      assert peers[..|peers|] == peers;
      peers := filtered;
      if !everFull && 1 + |peers| < maxPeers {
        if |peers| == 0 {
          state := Waiting;
        } else {
          state := Active;
        }
      }
    }

    method Close()
      modifies this
      ensures Abs() == old(Abs()).(state := Closed)
    {
      state := Closed;
    }
  }

  /** Joining and leaving again restores the slot, unless joining made it full: then it stays closed to others. */
  lemma JoinThenLeave(s: SlotValue, p: ConnId)
    requires CanJoin(s) && p !in s.peers && s.maxPeers >= 2
    requires s.state == if s.peers == [] then Waiting else Active
    ensures var s' := WithoutPeer(WithPeer(s, p), p);
            && s'.peers == s.peers
            && (s' == s <==> ConnectedCount(s) + 1 < s.maxPeers)
            && (ConnectedCount(s) + 1 >= s.maxPeers ==> !CanJoin(s'))
  {
    assert (s.peers + [p])[..|s.peers|] == s.peers;
  }

  /** Peer limits from 2 to 10 are taken as they are; below it is 2, above it is 10. */
  lemma PeerLimits(id: SlotId, code: Code, initiator: ConnId, asked: int, now: int)
    ensures var s := Fresh(id, code, initiator, asked, now);
            && (2 <= asked <= 10 ==> s.maxPeers == asked)
            && (asked < 2 ==> s.maxPeers == 2) && (asked > 10 ==> s.maxPeers == 10)
            && s.expiresAt == now + 600 && CanJoin(s)
  {
  }

  /** Peers asking to join one after the other; those refused are left out. */
  function JoinAll(s: SlotValue, ids: seq<ConnId>): SlotValue {
    if ids == [] then s
    else
      var before := JoinAll(s, ids[..|ids| - 1]);
      if JoinRefusal(before).None? then WithPeer(before, ids[|ids| - 1]) else before
  }

  /** An open slot takes the first peers up to its limit, in order, and refuses all others as full. */
  lemma {:induction false} SlotFillsUp(s: SlotValue, ids: seq<ConnId>)
    requires CanJoin(s) && s.peers == []
    ensures FilledTo(s, JoinAll(s, ids), ids)
    decreases |ids|
  {
    if ids != [] {
      hide FilledTo;
      var front, last := ids[..|ids| - 1], ids[|ids| - 1];
      SlotFillsUp(s, front);
      OneMoreAsks(s, JoinAll(s, front), front, last);
      assert ids == front + [last];
    }
  }

  /** What s has become after these connections asked to join. */
  ghost predicate FilledTo(s: SlotValue, all: SlotValue, ids: seq<ConnId>) {
    var room := s.maxPeers - 1;
    && room >= 1
    && all.peers == (if |ids| < room then ids else ids[..room])
    && all.initiator == s.initiator && all.maxPeers == s.maxPeers
    && (if |ids| < room then JoinRefusal(all) == None else JoinRefusal(all) == Some(SlotFull) && all.everFull && all.state.Full?)
    && (0 < |ids| < room ==> all.state.Active?)
    && (ids == [] ==> all == s)
  }

  lemma OneMoreAsks(s: SlotValue, before: SlotValue, front: seq<ConnId>, last: ConnId)
    requires FilledTo(s, before, front)
    ensures FilledTo(s, if JoinRefusal(before).None? then WithPeer(before, last) else before, front + [last])
  {
    var room := s.maxPeers - 1;
    if |front| >= room {
      assert (front + [last])[..room] == front[..room];
    } else {
      assert (front + [last])[..|front| + 1] == front + [last];
    }
  }

  /** A closed slot says so, whatever its membership. */
  lemma ClosedIsRefused(s: SlotValue)
    ensures JoinRefusal(s.(state := Closed)) == Some(SlotClosed)
    ensures JoinRefusal(s) == Some(SlotClosed) <==> s.state.Closed?
    ensures JoinRefusal(s) == Some(SlotFull) <==> !s.state.Closed? && (s.state.Full? || s.everFull || 1 + |s.peers| >= s.maxPeers)
  {
  }
}
