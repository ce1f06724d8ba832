/**
 What a node knows is what it was told: its views of the other nodes are the last heartbeats
 that reached it, its primary is a node that claimed to be one, and it stands for election
 exactly when those messages leave it no primary and no better candidate.
 */
module ElectHeard {
  import opened Bytes
  import opened Elector
  import opened ElectSafety

  // --- One message ----------------------------------------------------------------------

  /** A heartbeat is recorded whole, under its sender and at its time, and no other view changes. */
  lemma {:induction false} HeartbeatIsRecorded(n: Node, from: NodeId, msg: Message, now: nat)
    requires msg.Hb?
    ensures var m := OnMessage(n, from, msg, now).0;
            && from in m.views && m.views.Keys == n.views.Keys + {from}
            && m.views[from].lastSeen == now && m.views[from].lastEpoch == msg.epoch
            && m.views[from].lastRole == msg.role && m.views[from].lastOffset == msg.offset
            && forall p :: p in n.views && p != from ==> m.views[p] == n.views[p]
  {
  }

  /** The heartbeats that move a node: a primary's, of a newer epoch, or of the same epoch where no primary is known. */
  predicate Moves(n: Node, msg: Message)
    requires msg.Hb?
  {
    && msg.role == Primary
    && (msg.epoch > n.epoch || (msg.epoch == n.epoch && n.primary == None && n.role == Replica))
  }

  /** A heartbeat changes the primary, the role or the epoch exactly when it moves the node, which then follows its sender. */
  lemma {:induction false} HeartbeatMovesExactly(n: Node, from: NodeId, msg: Message, now: nat)
    requires msg.Hb? && from != n.id
    ensures var (m, out) := OnMessage(n, from, msg, now);
            && out == []
            && ((m.primary, m.role, m.epoch) != (n.primary, n.role, n.epoch) <==> Moves(n, msg))
            && (Moves(n, msg) ==> m.primary == Some(from) && m.role == Replica && m.epoch == msg.epoch)
            && m.saved == (if msg.role == Primary && msg.epoch > n.epoch then Saved(msg.epoch, None) else n.saved)
            && (if Moves(n, msg) && n.role == Candidate then m.votes == {} && m.offerAt == None
                else m.votes == n.votes && m.offerAt == n.offerAt)
            && m.id == n.id && m.peers == n.peers && m.timeouts == n.timeouts && m.firstTick == n.firstTick && m.offset == n.offset
            && m.hbSent == n.hbSent && m.backoffUntil == n.backoffUntil && m.lastAccept == n.lastAccept
  {
  }

  /** An announcement is taken when its epoch is newer, or the same with another primary; then the node follows it. */
  lemma {:induction false} AnnouncementMovesExactly(n: Node, from: NodeId, msg: Message, now: nat)
    requires msg.Announce? && msg.newPrimary != n.id
    ensures var (m, out) := OnMessage(n, from, msg, now);
            && out == [] && m.views == n.views
            && (m == n || (m.primary == Some(msg.newPrimary) && m.role == Replica && m.epoch == msg.epoch
                           && m.saved == Saved(msg.epoch, Some(msg.newPrimary)) && m.lastAccept == Some(msg.epoch)
                           && m.votes == {} && m.offerAt == None))
            && ((m.primary, m.epoch) != (n.primary, n.epoch)
                <==> msg.epoch > n.epoch || (msg.epoch == n.epoch && n.primary != Some(msg.newPrimary)))
            && ((m.primary, m.epoch) == (n.primary, n.epoch) ==> m == n)
            && m.id == n.id && m.peers == n.peers && m.timeouts == n.timeouts && m.firstTick == n.firstTick && m.offset == n.offset
            && m.hbSent == n.hbSent && m.backoffUntil == n.backoffUntil
  {
  }

  /** An offer that is voted for is saved, and remembered, before the vote leaves; any other changes nothing. */
  lemma {:induction false} OfferIsAnsweredExactly(n: Node, from: NodeId, msg: Message, now: nat)
    requires msg.Offer?
    ensures var (m, out) := OnMessage(n, from, msg, now);
            var votes := msg.newEpoch > n.epoch && !Ahead(n.offset, n.id, msg.offset, msg.candidate) && n.lastAccept != Some(msg.newEpoch);
            && out == (if votes then [Outbound(Some(msg.candidate), Accept(msg.newEpoch, n.id))] else [])
            && (votes ==> m.epoch == msg.newEpoch && m.lastAccept == Some(msg.newEpoch)
                          && m.saved == Saved(msg.newEpoch, Some(msg.candidate)))
            && (!votes ==> m == n)
            && m == n.(epoch := m.epoch, lastAccept := m.lastAccept, saved := m.saved)
  {
  }

  /** A vote is counted exactly by a candidate of its epoch, and changes nothing else. */
  lemma {:induction false} VoteIsCountedExactly(n: Node, from: NodeId, msg: Message, now: nat)
    requires msg.Accept?
    ensures var (m, out) := OnMessage(n, from, msg, now);
            && out == [] && m == n.(votes := m.votes)
            && m.votes == if n.role == Candidate && n.epoch == msg.epoch then n.votes + {msg.accepter} else n.votes
  {
  }

  /** A restart keeps the durable record and who the node is, and nothing else; a saved vote is remembered as cast. */
  lemma {:induction false} RestartKeepsExactly(n: Node, a: Action)
    requires a.Restart?
    ensures var (m, out) := NodeStep(n, a);
            && out == [] && m.id == n.id && m.peers == n.peers && m.timeouts == n.timeouts && m.saved == n.saved
            && m.role == Replica && m.primary == None && m.epoch == (if n.saved.epoch == 0 then 1 else n.saved.epoch)
            && (m.lastAccept == if n.saved.epoch > 0 && n.saved.votedFor.Some? then Some(n.saved.epoch) else None)
            && m.views == map[] && m.hbSent == map[] && m.votes == {} && m.offset == 0
            && m.offerAt == None && m.backoffUntil == None && m.firstTick == None
  {
  }

  /** Offers, votes and announcements leave the views alone. */
  lemma {:induction false} OnlyHeartbeatsAreRecorded(n: Node, from: NodeId, msg: Message, now: nat)
    requires !msg.Hb?
    ensures OnMessage(n, from, msg, now).0.views == n.views
  {
  }

  // --- Every run ------------------------------------------------------------------------

  /** The last heartbeat of each node that reached id since it started, with the time it arrived. */
  function Heard(c: Cluster, schedule: seq<Action>, id: NodeId): map<NodeId, PeerView> {
    if schedule == [] then map[]
    else
      var before, a := schedule[..|schedule| - 1], schedule[|schedule| - 1];
      var heard := Heard(c, before, id);
      if a.node == id && Enabled(Execute(c, before), a) then HeardNext(heard, a) else heard
  }

  function HeardNext(heard: map<NodeId, PeerView>, a: Action): map<NodeId, PeerView> {
    match a
    case Pump(_, p, now, _) =>
      if p.out.msg.Hb?
      then heard[p.from := PeerView(now, p.out.msg.epoch, p.out.msg.role, p.out.msg.offset)]
      else heard
    case Restart(_) => map[]
    case CrashBeforeTick(_, _, _) => map[]
    case _ => heard
  }

  lemma {:induction false} TickKeepsViews(n: Node, now: nat, jitter: nat)
    ensures var m := Tick(n, now, jitter).0; m.views == n.views && m.peers == n.peers && m.timeouts == n.timeouts && m.id == n.id
  {
    hide Heartbeats, MayStandForElection;
  }

  lemma {:induction false} StepHears(n: Node, a: Action)
    ensures NodeStep(n, a).0.views == HeardNext(n.views, a)
  {
    hide Tick;
    if a.Pump? {
      TickKeepsViews(OnMessage(n, a.packet.from, a.packet.out.msg, a.now).0, a.now, a.jitter);
    } else if a.Timeout? {
      TickKeepsViews(n, a.now, a.jitter);
    }
  }

  /** In every run a node's views are exactly the last heartbeats that reached it since it started. */
  lemma {:induction false} ViewsAreWhatWasHeard(c: Cluster, schedule: seq<Action>, id: NodeId)
    requires id in Execute(c, schedule).nodes
    ensures Execute(c, schedule).nodes[id].views == Heard(c, schedule, id)
    decreases |schedule|
  {
    hide NodeStep;
    if schedule != [] {
      var before, a := schedule[..|schedule| - 1], schedule[|schedule| - 1];
      ViewsAreWhatWasHeard(c, before, id);
      if Enabled(Execute(c, before), a) && a.node == id {
        StepHears(Execute(c, before).nodes[id], a);
      }
    }
  }

  // --- Standing for election --------------------------------------------------------------

  /** The node as it ticks: after the message, if the step delivers one. */
  function Told(n: Node, a: Action): Node {
    if a.Pump? then OnMessage(n, a.packet.from, a.packet.out.msg, a.now).0 else n
  }

  predicate Ticks(a: Action) {
    a.Pump? || a.Timeout?
  }

  predicate Offers(out: seq<Outbound>) {
    exists i :: 0 <= i < |out| && out[i].msg.Offer?
  }

  /** Not heard from for down_after, or never. */
  predicate Silent(heard: map<NodeId, PeerView>, p: NodeId, now: nat, downAfter: nat) {
    p !in heard || Since(now, heard[p].lastSeen) >= downAfter
  }

  /** A peer, not the primary, that was heard lately and was then ahead of n. */
  predicate BetterPeer(n: Node, heard: map<NodeId, PeerView>, p: NodeId, now: nat) {
    && p in n.peers && p != n.id && n.primary != Some(p) && !Silent(heard, p, now, n.timeouts.downAfter)
    && Ahead(heard[p].lastOffset, p, n.offset, n.id)
  }

  lemma {:induction false} BestMeansNoBetterPeer(n: Node, now: nat)
    ensures BestCandidate(n, now) <==> forall p :: !BetterPeer(n, n.views, p, now)
  {
    if BestCandidate(n, now) {
      forall p
        ensures !BetterPeer(n, n.views, p, now)
      {
        if p in n.peers {
          var i :| 0 <= i < |n.peers| && n.peers[i] == p;
          assert !Outranks(n, n.peers[i], now);
        }
      }
    }
    if forall p :: !BetterPeer(n, n.views, p, now) {
      forall i | 0 <= i < |n.peers|
        ensures !Outranks(n, n.peers[i], now)
      {
        assert !BetterPeer(n, n.views, n.peers[i], now);
      }
    }
  }

  /** A node that heard this and knows no more stands now. */
  ghost predicate Stands(n: Node, heard: map<NodeId, PeerView>, now: nat) {
    && n.role == Replica
    && (n.backoffUntil.Some? ==> n.backoffUntil.value <= now)
    && (match n.primary
        case Some(p) => Silent(heard, p, now, n.timeouts.downAfter)
        case None => (if n.firstTick.Some? then Since(now, n.firstTick.value) else 0) >= n.timeouts.downAfter)
    && forall p :: !BetterPeer(n, heard, p, now)
  }

  lemma {:induction false} TickOffersExactly(n: Node, now: nat, jitter: nat)
    ensures Offers(Tick(n, now, jitter).1) <==> Stands(n, n.views, now)
  {
    var started := n.(firstTick := if n.firstTick.None? then Some(now) else n.firstTick);
    StandingWithClock(n, started, now);
    hide Tick, MayStandForElection, Stands;
    TickOffersWhenStanding(n, now, jitter);
    var out := Tick(n, now, jitter).1;
    if exists o :: o in out && o.msg.Offer? {
      var o :| o in out && o.msg.Offer?;
      var i :| 0 <= i < |out| && out[i] == o;
    }
  }

  lemma {:induction false} StandingWithClock(n: Node, started: Node, now: nat)
    requires started == n.(firstTick := if n.firstTick.None? then Some(now) else n.firstTick)
    ensures MayStandForElection(started, now) <==> Stands(n, n.views, now)
  {
    BestMeansNoBetterPeer(started, now);
    hide BestCandidate;
    assert forall p :: BetterPeer(started, started.views, p, now) == BetterPeer(n, n.views, p, now);
  }

  /** A step offers a candidacy exactly when it ticks and, with the message it took, the node stands. */
  lemma {:induction false} StepOffersExactly(n: Node, a: Action)
    ensures Offers(NodeStep(n, a).1) <==> Ticks(a) && Stands(Told(n, a), Told(n, a).views, a.now)
  {
    hide Tick, OnMessage, Stands;
    if a.Pump? {
      var (m, replies) := OnMessage(n, a.packet.from, a.packet.out.msg, a.now);
      RepliesAreVotes(n, a.packet.from, a.packet.out.msg, a.now);
      TickOffersExactly(m, a.now, a.jitter);
      var out := Tick(m, a.now, a.jitter).1;
      OffersAfterVotes(replies, out);
    } else if a.Timeout? {
      TickOffersExactly(n, a.now, a.jitter);
    }
  }

  lemma {:induction false} RepliesAreVotes(n: Node, from: NodeId, msg: Message, now: nat)
    ensures !Offers(OnMessage(n, from, msg, now).1)
  {
  }

  lemma {:induction false} OffersAfterVotes(replies: seq<Outbound>, out: seq<Outbound>)
    requires !Offers(replies)
    ensures Offers(replies + out) <==> Offers(out)
  {
    if Offers(out) {
      var i :| 0 <= i < |out| && out[i].msg.Offer?;
      assert (replies + out)[|replies| + i].msg.Offer?;
    }
    if Offers(replies + out) {
      var i :| 0 <= i < |replies + out| && (replies + out)[i].msg.Offer?;
      assert i >= |replies| && out[i - |replies|].msg.Offer?;
    }
  }

  /** In every run a node that ticks offers itself exactly when what it heard lately holds neither its primary nor a better peer. */
  lemma {:induction false} OffersFollowWhatWasHeard(c: Cluster, schedule: seq<Action>, a: Action)
    requires Enabled(Execute(c, schedule), a)
    ensures var n := Execute(c, schedule).nodes[a.node];
            Offers(NodeStep(n, a).1) <==> Ticks(a) && Stands(Told(n, a), HeardNext(Heard(c, schedule, a.node), a), a.now)
  {
    hide Execute, Heard, Stands, NodeStep, HeardNext;
    var n := Execute(c, schedule).nodes[a.node];
    ViewsAreWhatWasHeard(c, schedule, a.node);
    StepOffersExactly(n, a);
    if Ticks(a) {
      ToldHears(n, a);
    }
  }

  lemma {:induction false} ToldHears(n: Node, a: Action)
    requires Ticks(a)
    ensures Told(n, a).views == HeardNext(n.views, a)
  {
  }

  // --- After a heartbeat --------------------------------------------------------------------

  /** Between the two times, id takes messages and ticks and does not restart. */
  predicate Steady(steps: seq<Action>, id: NodeId, from: nat) {
    forall i :: 0 <= i < |steps| && steps[i].node == id ==>
      steps[i].Replicate? || (Ticks(steps[i]) && from <= steps[i].now)
  }

  predicate IsHeartbeat(a: Action, p: NodeId, t: nat) {
    a.Pump? && a.packet.from == p && a.packet.out.msg.Hb? && a.now == t
  }

  lemma {:induction false} StaysHeard(c: Cluster, before: seq<Action>, hb: Action, after: seq<Action>, p: NodeId, t: nat)
    requires Enabled(Execute(c, before), hb) && IsHeartbeat(hb, p, t) && Steady(after, hb.node, t)
    ensures var heard := Heard(c, before + [hb] + after, hb.node); p in heard && heard[p].lastSeen >= t
    decreases |after|
  {
    hide Execute, Enabled;
    var s := before + [hb] + after;
    if after == [] {
      assert s[..|s| - 1] == before && s[|s| - 1] == hb;
    } else {
      var init := after[..|after| - 1];
      StaysHeard(c, before, hb, init, p, t);
      assert s[..|s| - 1] == before + [hb] + init && s[|s| - 1] == after[|after| - 1];
    }
  }

  /**
   Failover waits: once a heartbeat of p has reached a node at time t, no step that the node
   takes before t + down_after offers its candidacy while p is its primary.
   */
  lemma {:induction false} NoOfferAfterAHeartbeat(c: Cluster, before: seq<Action>, hb: Action, after: seq<Action>, a: Action,
                                                  p: NodeId, t: nat)
    requires Enabled(Execute(c, before), hb) && IsHeartbeat(hb, p, t)
    requires a.node == hb.node && Ticks(a) && Steady(after + [a], hb.node, t)
    requires Enabled(Execute(c, before + [hb] + after), a)
    requires a.now < t + Execute(c, before + [hb] + after).nodes[a.node].timeouts.downAfter
    requires Told(Execute(c, before + [hb] + after).nodes[a.node], a).primary == Some(p)
    ensures !Offers(NodeStep(Execute(c, before + [hb] + after).nodes[a.node], a).1)
  {
    var s := before + [hb] + after;
    assert Steady(after, hb.node, t) && t <= a.now by {
      assert (after + [a])[|after|] == a;
      assert forall i :: 0 <= i < |after| ==> (after + [a])[i] == after[i];
    }
    hide Execute, Enabled, NodeStep, Heard;
    StaysHeard(c, before, hb, after, p, t);
    OffersFollowWhatWasHeard(c, s, a);
    ToldKeepsSettings(Execute(c, s).nodes[a.node], a);
    ExistsNoLess(Heard(c, s, a.node), a, p, t);
  }

  lemma {:induction false} ToldKeepsSettings(n: Node, a: Action)
    ensures Told(n, a).timeouts == n.timeouts && Told(n, a).peers == n.peers && Told(n, a).id == n.id
  {
  }

  lemma {:induction false} ExistsNoLess(heard: map<NodeId, PeerView>, a: Action, p: NodeId, t: nat)
    requires Ticks(a) && t <= a.now && p in heard && heard[p].lastSeen >= t
    ensures p in HeardNext(heard, a) && HeardNext(heard, a)[p].lastSeen >= t
  {
  }

  // --- A known primary claimed to be one ---------------------------------------------------------

  /** p said that it is primary, in an epoch no later than e. */
  ghost predicate Claimed(log: set<Sent>, p: NodeId, e: Epoch) {
    exists s :: s in log && s.from == p && Claims(s.out.msg, p) && s.out.msg.epoch <= e
  }

  predicate Claims(msg: Message, p: NodeId) {
    (msg.Hb? && msg.role == Primary) || (msg.Announce? && msg.newPrimary == p)
  }

  /** A node's primary is itself, or a node that claimed to be primary of its epoch or an earlier one. */
  ghost predicate Knows(log: set<Sent>, n: Node) {
    n.primary.Some? && n.primary.value != n.id ==> Claimed(log, n.primary.value, n.epoch)
  }

  lemma {:induction false} MessageKnows(c: Cluster, w: World, n: Node, p: Sent, now: nat)
    requires Knows(w.log, n) && Good(c, w.log, n) && Deliverable(w, p, n.id)
    ensures Knows(w.log, OnMessage(n, p.from, p.out.msg, now).0)
  {
    assert Signed(p);
    var m := OnMessage(n, p.from, p.out.msg, now).0;
    if m.primary != n.primary {
      assert Claims(p.out.msg, p.from) && m.primary == Some(p.from) && m.epoch == p.out.msg.epoch;
      assert Claimed(w.log, p.from, m.epoch);
    } else if n.primary.Some? && n.primary.value != n.id {
      ClaimedLater(w.log, w.log, n.primary.value, n.epoch, m.epoch);
    }
  }

  lemma {:induction false} ClaimedLater(log: set<Sent>, more: set<Sent>, p: NodeId, e: Epoch, f: Epoch)
    requires Claimed(log, p, e) && e <= f && log <= more
    ensures Claimed(more, p, f)
  {
  }

  lemma {:induction false} KnowsLater(log: set<Sent>, more: set<Sent>, n: Node, m: Node)
    requires Knows(log, n) && n.id == m.id && n.epoch <= m.epoch && log <= more
    requires m.primary == n.primary || m.primary == None || m.primary == Some(m.id)
    ensures Knows(more, m)
  {
    if m.primary.Some? && m.primary.value != m.id {
      ClaimedLater(log, more, n.primary.value, n.epoch, m.epoch);
    }
  }

  lemma {:induction false} TickKnows(n: Node, now: nat, jitter: nat)
    ensures var m := Tick(n, now, jitter).0; m.id == n.id && n.epoch <= m.epoch && m.primary in {n.primary, Some(n.id)}
  {
    hide Heartbeats, MayStandForElection;
  }

  lemma {:induction false} StepKnows(c: Cluster, w: World, a: Action)
    requires Inv(c, w) && Enabled(w, a) && Knows(w.log, w.nodes[a.node])
    ensures Knows(Apply(w, a).log, Apply(w, a).nodes[a.node])
  {
    hide Tick, Execute, Knows, OnMessage;
    var n := w.nodes[a.node];
    var more := Apply(w, a).log;
    match a
    case Pump(_, p, now, jitter) =>
      var m := OnMessage(n, p.from, p.out.msg, now).0;
      MessageKnows(c, w, n, p, now);
      TickKnows(m, now, jitter);
      KnowsLater(w.log, more, m, Tick(m, now, jitter).0);
    case Timeout(_, now, jitter) =>
      TickKnows(n, now, jitter);
      KnowsLater(w.log, more, n, Tick(n, now, jitter).0);
    case Replicate(_, _) => KnowsLater(w.log, more, n, n.(offset := a.offset));
    case Restart(_) => FreshKnows(more, n);
    case CrashBeforeTick(_, p, now) => FreshKnows(more, OnMessage(n, p.from, p.out.msg, now).0);
  }

  lemma {:induction false} FreshKnows(log: set<Sent>, n: Node)
    ensures Knows(log, Restarted(n))
  {
  }

  /** In every run a node follows only nodes that claimed to be primary, in its own epoch or an earlier one. */
  lemma {:induction false} PrimariesClaimedIt(c: Cluster, schedule: seq<Action>, id: NodeId)
    requires id in Execute(c, schedule).nodes
    ensures Knows(Execute(c, schedule).log, Execute(c, schedule).nodes[id])
    decreases |schedule|
  {
    hide NodeStep, Deliverable, Inv, Knows;
    if schedule == [] {
      InitialKnows(c, id);
    } else {
      var before, a := schedule[..|schedule| - 1], schedule[|schedule| - 1];
      var w := Execute(c, before);
      PrimariesClaimedIt(c, before, id);
      if Enabled(w, a) {
        EveryRunKeepsInv(c, before);
        if a.node == id {
          StepKnows(c, w, a);
        } else {
          KnowsLater(w.log, Apply(w, a).log, w.nodes[id], w.nodes[id]);
        }
      }
    }
  }

  lemma {:induction false} InitialKnows(c: Cluster, id: NodeId)
    requires id in Initial(c).nodes
    ensures Knows(Initial(c).log, Initial(c).nodes[id])
  {
  }

  // --- Candidacies -----------------------------------------------------------------------------

  predicate Won(n: Node) {
    n.role == Candidate && n.offerAt.Some? && |n.votes| >= |n.peers| / 2 + 1
  }

  /** A tick, seen past its heartbeats. */
  lemma {:induction false} TickAfterBeats(n: Node, now: nat, jitter: nat) returns (ready: Node, beats: seq<Outbound>)
    ensures ready == n.(firstTick := ready.firstTick, hbSent := ready.hbSent)
    ensures MayStandForElection(ready, now) <==> Stands(n, n.views, now)
    ensures forall i :: 0 <= i < |beats| ==> beats[i].msg.Hb?
    ensures var (standing, offers) := StartElection(ready, now);
            var (finished, announces) := FinishCandidacy(standing, now, jitter);
            Tick(n, now, jitter) == (finished, beats + offers + announces)
  {
    hide MayStandForElection, Stands;
    var started := n.(firstTick := if n.firstTick.None? then Some(now) else n.firstTick);
    beats := Heartbeats(started, |n.peers|, now).1;
    ready := started.(hbSent := Heartbeats(started, |n.peers|, now).0);
    HeartbeatsAreHeartbeats(started, |n.peers|, now);
    StandingIgnoresHeartbeats(started, ready.hbSent, now);
    StandingWithClock(n, started, now);
  }

  /**
   A node that stands offers itself to all in the next epoch, at its own offset, and has saved its
   own vote; no other tick moves the epoch.
   */
  lemma {:induction false} CandidacyIsOwn(n: Node, now: nat, jitter: nat)
    ensures var (m, out) := Tick(n, now, jitter);
            var next := if n.epoch == MAX_EPOCH then MAX_EPOCH else n.epoch + 1;
            && (forall i :: 0 <= i < |out| && out[i].msg.Offer? ==> out[i] == Outbound(None, Offer(next, n.id, n.offset)))
            && (if Stands(n, n.views, now) then m.epoch == next && m.saved == Saved(next, Some(n.id))
                else m.epoch == n.epoch && m.saved == n.saved)
            && (Stands(n, n.views, now) && |n.peers| >= 2 && n.timeouts.election > 0 ==>
                  m.role == Candidate && m.votes == {n.id} && m.offerAt == Some(now))
  {
    hide MayStandForElection, Stands, Tick;
    var ready, beats := TickAfterBeats(n, now, jitter);
  }

  /** A tick announces a primary exactly when the node's votes make a majority, and then it is the node itself. */
  lemma {:induction false} MajorityWinsExactly(n: Node, now: nat, jitter: nat)
    ensures var (m, out) := Tick(n, now, jitter);
            && (Outbound(None, Announce(m.epoch, n.id)) in out
                <==> Won(n) || (Stands(n, n.views, now) && |n.peers| <= 1))
            && (forall i :: 0 <= i < |out| && out[i].msg.Announce? ==> out[i] == Outbound(None, Announce(m.epoch, n.id)))
            && (Outbound(None, Announce(m.epoch, n.id)) in out ==> m.role == Primary && m.primary == Some(n.id))
            && (m.role == Primary && n.role != Primary ==> Outbound(None, Announce(m.epoch, n.id)) in out)
  {
    var ready, beats := TickAfterBeats(n, now, jitter);
    assert Stands(n, n.views, now) ==> n.role == Replica;
    hide MayStandForElection, Stands, Tick;
    var (standing, offers) := StartElection(ready, now);
    var (finished, announces) := FinishCandidacy(standing, now, jitter);
    var out := beats + offers + announces;
    var o := Outbound(None, Announce(finished.epoch, n.id));
    assert o in out <==> o in announces;
    assert o in announces <==> standing.role == Candidate && standing.offerAt.Some? && |standing.votes| >= |n.peers| / 2 + 1 by {
      if announces != [] {
        assert announces[0] == o;
      }
    }
  }

  /** A candidate without a majority waits for the election timeout, and then backs off for exactly its wait. */
  lemma {:induction false} CandidateWaitsExactly(n: Node, now: nat, jitter: nat)
    requires n.role == Candidate && n.offerAt.Some? && !Won(n)
    ensures var m := Tick(n, now, jitter).0;
            && m.epoch == n.epoch && m.votes == (if m.role == Candidate then n.votes else {})
            && (m.role == Candidate <==> Since(now, n.offerAt.value) < n.timeouts.election)
            && (if m.role == Candidate then m.offerAt == n.offerAt && m.backoffUntil == n.backoffUntil
                else m.role == Replica && m.offerAt == None
                     && m.backoffUntil == Some(now + n.timeouts.backoff + if jitter < n.timeouts.jitter then jitter else n.timeouts.jitter))
  {
    hide Heartbeats;
  }

  // --- Heartbeats sent -----------------------------------------------------------------------

  /** The peers whose heartbeat is due: not the node itself, and not sent one within the interval. */
  predicate Due(n: Node, p: NodeId, now: nat) {
    p in n.peers && p != n.id && (p !in n.hbSent || Since(now, n.hbSent[p]) >= n.timeouts.hbInterval)
  }

  lemma {:induction false} HeartbeatsExactly(n: Node, k: nat, now: nat, p: NodeId)
    requires k <= |n.peers|
    ensures var (sent, out) := Heartbeats(n, k, now);
            var due := p in n.peers[..k] && p != n.id && (p !in n.hbSent || Since(now, n.hbSent[p]) >= n.timeouts.hbInterval);
            && (p in sent <==> p in n.hbSent || due)
            && (p in sent ==> sent[p] == if due then now else n.hbSent[p])
            && (Outbound(Some(p), Hb(n.epoch, n.id, n.role, n.offset)) in out <==> due)
            && forall i :: 0 <= i < |out| ==> out[i].to.Some? && out[i].msg == Hb(n.epoch, n.id, n.role, n.offset)
  {
    if k > 0 {
      HeartbeatsExactly(n, k - 1, now, p);
      assert n.peers[..k] == n.peers[..k - 1] + [n.peers[k - 1]];
    }
  }

  /** A tick beats exactly to the peers that are due, with the node's own epoch, role and offset, and notes the time. */
  lemma {:induction false} TickBeatsExactly(n: Node, now: nat, jitter: nat, p: NodeId)
    ensures var (m, out) := Tick(n, now, jitter);
            && (Outbound(Some(p), Hb(n.epoch, n.id, n.role, n.offset)) in out <==> Due(n, p, now))
            && (forall i :: 0 <= i < |out| && out[i].msg.Hb? ==> out[i].to.Some? && out[i].msg == Hb(n.epoch, n.id, n.role, n.offset))
            && (p in m.hbSent <==> p in n.hbSent || Due(n, p, now))
            && (p in m.hbSent ==> m.hbSent[p] == if Due(n, p, now) then now else n.hbSent[p])
  {
    hide Heartbeats, MayStandForElection;
    var started := n.(firstTick := if n.firstTick.None? then Some(now) else n.firstTick);
    HeartbeatsExactly(started, |n.peers|, now, p);
    assert n.peers[..|n.peers|] == n.peers;
    var (sent, beats) := Heartbeats(started, |n.peers|, now);
    var (standing, offers) := StartElection(started.(hbSent := sent), now);
    var (finished, announces) := FinishCandidacy(standing, now, jitter);
    var b := Outbound(Some(p), Hb(n.epoch, n.id, n.role, n.offset));
    var out := Tick(n, now, jitter).1;
    assert out == beats + offers + announces;
    assert b in out <==> b in beats;
    forall i | 0 <= i < |out| && out[i].msg.Hb?
      ensures out[i].to.Some? && out[i].msg == b.msg
    {
      assert i < |beats| && out[i] == beats[i];
    }
  }
}
