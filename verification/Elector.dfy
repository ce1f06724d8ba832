/**
 The election state machine of crates/kevy-elect: one node's handlers and tick as functions
 on its state. Node ids keep only their order, time is a count of milliseconds, and the
 durable (epoch, vote) record is part of the state.
 */
module Elector {
  import opened Bytes

  type NodeId = nat

  const MAX_EPOCH := 0xFFFF_FFFF_FFFF_FFFF
  type Epoch = e: int | 0 <= e <= MAX_EPOCH

  datatype Role = Primary | Replica | Candidate

  datatype Message =
    | Hb(epoch: Epoch, node: NodeId, role: Role, offset: nat)
    | Offer(newEpoch: Epoch, candidate: NodeId, offset: nat)
    | Accept(epoch: Epoch, accepter: NodeId)
    | Announce(epoch: Epoch, newPrimary: NodeId)

  /** A message to one peer, or to all of them when to is None. */
  datatype Outbound = Outbound(to: Option<NodeId>, msg: Message)

  datatype PeerView = PeerView(lastSeen: nat, lastEpoch: Epoch, lastRole: Role, lastOffset: nat)

  datatype Timeouts = Timeouts(hbInterval: nat, downAfter: nat, election: nat, backoff: nat, jitter: nat)

  /** What the durable store holds. */
  datatype Saved = Saved(epoch: Epoch, votedFor: Option<NodeId>)

  datatype Node = Node(
    id: NodeId,
    peers: seq<NodeId>,
    timeouts: Timeouts,
    role: Role,
    epoch: Epoch,
    primary: Option<NodeId>,
    firstTick: Option<nat>,
    offset: nat,
    hbSent: map<NodeId, nat>,
    views: map<NodeId, PeerView>,
    votes: set<NodeId>,
    offerAt: Option<nat>,
    backoffUntil: Option<nat>,
    lastAccept: Option<Epoch>,
    saved: Saved)
  {
    function Quorum(): nat {
      |peers| / 2 + 1
    }
  }

  /** Instant::duration_since, which saturates at zero. */
  function Since(now: nat, earlier: nat): nat {
    if now < earlier then 0 else now - earlier
  }

  /** Elector::new with with_persist: a node that starts or restarts on a durable record. */
  function Start(id: NodeId, peers: seq<NodeId>, timeouts: Timeouts, role: Role, saved: Saved): Node {
    Node(id, peers, timeouts, role, if saved.epoch > 1 then saved.epoch else 1, None, None, 0, map[], map[], {}, None, None,
         if saved.epoch > 0 && saved.votedFor.Some? then Some(saved.epoch) else None, saved)
  }

  // --- Inbound messages ------------------------------------------------------------

  function FollowPrimary(n: Node, from: NodeId, epoch: Epoch): Node {
    var m := n.(saved := if epoch > n.epoch then Saved(epoch, None) else n.saved, epoch := epoch, primary := Some(from));
    if n.role == Primary && from != n.id then m.(role := Replica)
    else if n.role == Candidate then m.(role := Replica, offerAt := None, votes := {})
    else m
  }

  function OnHb(n: Node, from: NodeId, epoch: Epoch, role: Role, offset: nat, now: nat): Node {
    var m := n.(views := n.views[from := PeerView(now, epoch, role, offset)]);
    if role == Primary && epoch >= n.epoch && (epoch > n.epoch || (n.primary == None && n.role == Replica))
    then FollowPrimary(m, from, epoch) else m
  }

  /** Whether a node votes for an offer. */
  predicate Accepts(n: Node, newEpoch: Epoch, candidate: NodeId, offset: nat) {
    && newEpoch > n.epoch
    && n.offset <= offset
    && !(n.offset == offset && n.id < candidate)
    && n.lastAccept != Some(newEpoch)
  }

  function OnOffer(n: Node, newEpoch: Epoch, candidate: NodeId, offset: nat): (Node, seq<Outbound>) {
    if Accepts(n, newEpoch, candidate, offset) then
      (n.(saved := Saved(newEpoch, Some(candidate)), lastAccept := Some(newEpoch), epoch := newEpoch),
       [Outbound(Some(candidate), Accept(newEpoch, n.id))])
    else (n, [])
  }

  function OnAccept(n: Node, epoch: Epoch, accepter: NodeId): Node {
    if n.role != Candidate || n.epoch != epoch then n else n.(votes := n.votes + {accepter})
  }

  function OnAnnounce(n: Node, epoch: Epoch, newPrimary: NodeId): Node {
    if (epoch <= n.epoch && n.primary == Some(newPrimary)) || epoch < n.epoch then n
    else n.(saved := Saved(epoch, Some(newPrimary)), epoch := epoch, primary := Some(newPrimary),
            lastAccept := Some(epoch), votes := {}, offerAt := None,
            role := if newPrimary == n.id then Primary else Replica)
  }

  function OnMessage(n: Node, from: NodeId, msg: Message, now: nat): (Node, seq<Outbound>) {
    match msg
    case Hb(epoch, _, role, offset) => (OnHb(n, from, epoch, role, offset, now), [])
    case Offer(newEpoch, candidate, offset) => OnOffer(n, newEpoch, candidate, offset)
    case Accept(epoch, accepter) => (OnAccept(n, epoch, accepter), [])
    case Announce(epoch, newPrimary) => (OnAnnounce(n, epoch, newPrimary), [])
  }

  // --- The tick -------------------------------------------------------------------------

  predicate HbDue(n: Node, peer: NodeId, sent: map<NodeId, nat>, now: nat) {
    peer != n.id && (peer in sent ==> Since(now, sent[peer]) >= n.timeouts.hbInterval)
  }

  /** Heartbeats to the first k peers. */
  function Heartbeats(n: Node, k: nat, now: nat): (map<NodeId, nat>, seq<Outbound>)
    requires k <= |n.peers|
  {
    if k == 0 then (n.hbSent, [])
    else
      var (sent, out) := Heartbeats(n, k - 1, now);
      var peer := n.peers[k - 1];
      if HbDue(n, peer, sent, now)
      then (sent[peer := now], out + [Outbound(Some(peer), Hb(n.epoch, n.id, n.role, n.offset))])
      else (sent, out)
  }

  predicate PeerDown(n: Node, peer: NodeId, now: nat) {
    peer in n.views ==> Since(now, n.views[peer].lastSeen) >= n.timeouts.downAfter
  }

  /** A live peer, other than the primary, that the candidate order puts ahead of n. */
  predicate Outranks(n: Node, peer: NodeId, now: nat) {
    && peer != n.id && n.primary != Some(peer) && peer in n.views && !PeerDown(n, peer, now)
    && (n.views[peer].lastOffset > n.offset || (n.views[peer].lastOffset == n.offset && peer < n.id))
  }

  predicate BestCandidate(n: Node, now: nat) {
    forall i :: 0 <= i < |n.peers| ==> !Outranks(n, n.peers[i], now)
  }

  predicate MayStandForElection(n: Node, now: nat) {
    && n.role == Replica
    && (n.backoffUntil.Some? ==> n.backoffUntil.value <= now)
    && (if n.primary.Some? then PeerDown(n, n.primary.value, now)
        else n.firstTick.Some? && Since(now, n.firstTick.value) >= n.timeouts.downAfter)
    && BestCandidate(n, now)
  }

  /** u64::saturating_add(1) */
  function NextEpoch(e: Epoch): Epoch {
    if e == MAX_EPOCH then MAX_EPOCH else e + 1
  }

  function StartElection(n: Node, now: nat): (Node, seq<Outbound>) {
    if MayStandForElection(n, now) then
      var e := NextEpoch(n.epoch);
      (n.(saved := Saved(e, Some(n.id)), epoch := e, role := Candidate, votes := {n.id}, offerAt := Some(now)),
       [Outbound(None, Offer(e, n.id, n.offset))])
    else (n, [])
  }

  function FinishCandidacy(n: Node, now: nat, jitter: nat): (Node, seq<Outbound>) {
    if n.role != Candidate || n.offerAt.None? then (n, [])
    else if |n.votes| >= n.Quorum() then
      (n.(role := Primary, primary := Some(n.id), offerAt := None, votes := {}),
       [Outbound(None, Announce(n.epoch, n.id))])
    else if Since(now, n.offerAt.value) >= n.timeouts.election then
      var wait := if jitter < n.timeouts.jitter then jitter else n.timeouts.jitter;
      (n.(role := Replica, offerAt := None, votes := {}, backoffUntil := Some(now + n.timeouts.backoff + wait)), [])
    else (n, [])
  }

  function Tick(n: Node, now: nat, jitter: nat): (Node, seq<Outbound>) {
    var started := n.(firstTick := if n.firstTick.None? then Some(now) else n.firstTick);
    var (sent, beats) := Heartbeats(started, |n.peers|, now);
    var (standing, offers) := StartElection(started.(hbSent := sent), now);
    var (finished, announces) := FinishCandidacy(standing, now, jitter);
    (finished, beats + offers + announces)
  }
}
