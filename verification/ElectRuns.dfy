/** Steps of concrete election runs, among nodes that have heard no heartbeat. */
module ElectRuns {
  import opened Bytes
  import opened Elector
  import opened ElectSafety

  const TIMES := Timeouts(200, 5000, 3000, 1000, 4000)

  /** The part of a node's state that a run depends on. */
  predicate Is(c: Cluster, n: Node, id: NodeId, role: Role, epoch: Epoch, offset: nat, votes: set<NodeId>,
               votedFor: Option<NodeId>) {
    && n.id == id && n.peers == c.peers && n.timeouts == TIMES && n.views == map[]
    && n.role == role && n.epoch == epoch && n.offset == offset && n.votes == votes && n.saved.votedFor == votedFor
    && n.epoch == (if n.saved.epoch > 1 then n.saved.epoch else 1)
    && (n.primary == if role == Primary then Some(id) else None)
    && n.offerAt.Some? == (role == Candidate) && n.backoffUntil == None
    && (n.lastAccept.Some? ==> n.lastAccept.value <= epoch)
  }

  lemma {:induction false} OneMore(c: Cluster, schedule: seq<Action>, a: Action)
    requires Enabled(Execute(c, schedule), a)
    ensures var w, w' := Execute(c, schedule), Execute(c, schedule + [a]);
            var (m, out) := NodeStep(w.nodes[a.node], a);
            && w'.nodes == w.nodes[a.node := m] && w.log <= w'.log
            && forall i :: 0 <= i < |out| ==> Sent(a.node, out[i]) in w'.log
  {
    hide Apply, Enabled, Execute;
    Unfold(c, schedule, a);
    Grows(Execute(c, schedule), a);
  }

  lemma {:induction false} Unfold(c: Cluster, schedule: seq<Action>, a: Action)
    requires Enabled(Execute(c, schedule), a)
    ensures Execute(c, schedule + [a]) == Apply(Execute(c, schedule), a)
  {
    assert (schedule + [a])[..|schedule|] == schedule;
  }

  lemma {:induction false} Grows(w: World, a: Action)
    requires Enabled(w, a)
    ensures var (m, out) := NodeStep(w.nodes[a.node], a);
            && Apply(w, a).nodes == w.nodes[a.node := m] && w.log <= Apply(w, a).log
            && forall i :: 0 <= i < |out| ==> Sent(a.node, out[i]) in Apply(w, a).log
  {
    hide NodeStep;
  }

  lemma {:induction false} StepIsTick(n: Node, a: Action)
    requires a.Timeout?
    ensures NodeStep(n, a) == Tick(n, a.now, a.jitter)
  {
  }

  lemma {:induction false} StepIsReplicate(n: Node, a: Action)
    requires a.Replicate?
    ensures NodeStep(n, a) == (n.(offset := a.offset), [])
  {
  }

  /** A tick, seen past its heartbeats. */
  lemma {:induction false} TickOf(n: Node, now: nat) returns (ready: Node, beats: seq<Outbound>)
    ensures ready == n.(firstTick := ready.firstTick, hbSent := ready.hbSent)
    ensures ready.firstTick == Some(if n.firstTick.None? then now else n.firstTick.value)
    ensures var (standing, offers) := StartElection(ready, now);
            var (finished, announces) := FinishCandidacy(standing, now, 0);
            Tick(n, now, 0) == (finished, beats + offers + announces)
  {
    hide StartElection, FinishCandidacy, Heartbeats;
    var started := n.(firstTick := if n.firstTick.None? then Some(now) else n.firstTick);
    beats := Heartbeats(started, |n.peers|, now).1;
    ready := started.(hbSent := Heartbeats(started, |n.peers|, now).0);
  }

  lemma {:induction false} QuietTick(c: Cluster, n: Node, now: nat, id: NodeId, role: Role, epoch: Epoch, offset: nat,
                                     votedFor: Option<NodeId>)
    requires Is(c, n, id, role, epoch, offset, {}, votedFor) && role != Candidate
    requires n.firstTick.None? || Since(now, n.firstTick.value) < 5000 || role == Primary
    ensures var m := Tick(n, now, 0).0;
            && Is(c, m, id, role, epoch, offset, {}, votedFor)
            && m.firstTick == Some(if n.firstTick.None? then now else n.firstTick.value)
  {
    hide Tick;
    var ready, beats := TickOf(n, now);
  }

  lemma {:induction false} StandingTick(c: Cluster, n: Node, id: NodeId, epoch: Epoch, offset: nat, votedFor: Option<NodeId>)
    requires Is(c, n, id, Replica, epoch, offset, {}, votedFor) && n.firstTick == Some(0) && |c.peers| >= 2
    ensures var (m, out) := Tick(n, 5000, 0);
            && Is(c, m, id, Candidate, NextEpoch(epoch), offset, {id}, Some(id)) && m.firstTick == Some(0)
            && Outbound(None, Offer(NextEpoch(epoch), id, offset)) in out
  {
    hide Tick;
    var ready, beats := TickOf(n, 5000);
    assert MayStandForElection(ready, 5000);
    var offer := Outbound(None, Offer(NextEpoch(epoch), id, offset));
    assert StartElection(ready, 5000).1 == [offer];
    assert FinishCandidacy(StartElection(ready, 5000).0, 5000, 0).1 == [];
    assert (beats + [offer] + [])[|beats|] == offer;
  }

  lemma {:induction false} WinningTick(c: Cluster, n: Node, now: nat, id: NodeId, epoch: Epoch, offset: nat, votes: set<NodeId>)
    requires Is(c, n, id, Candidate, epoch, offset, votes, Some(id)) && |votes| >= |c.peers| / 2 + 1
    ensures var (m, out) := Tick(n, now, 0);
            && Is(c, m, id, Primary, epoch, offset, {}, Some(id)) && m.firstTick.Some?
            && Outbound(None, Announce(epoch, id)) in out
  {
    hide Tick;
    var ready, beats := TickOf(n, now);
    var announce := Outbound(None, Announce(epoch, id));
    assert StartElection(ready, now) == (ready, []) && FinishCandidacy(ready, now, 0).1 == [announce];
    assert (beats + [] + [announce])[|beats|] == announce;
  }

  lemma {:induction false} VotingStep(c: Cluster, n: Node, p: Sent, now: nat, id: NodeId, role: Role, epoch: Epoch, offset: nat,
                                      votedFor: Option<NodeId>)
    requires Is(c, n, id, role, epoch, offset, {}, votedFor) && role != Candidate
    requires n.firstTick.Some? && (Since(now, n.firstTick.value) < 5000 || role == Primary)
    requires p.out.msg.Offer? && Accepts(n, p.out.msg.newEpoch, p.out.msg.candidate, p.out.msg.offset)
    ensures var (m, out) := NodeStep(n, Pump(id, p, now, 0));
            && Is(c, m, id, role, p.out.msg.newEpoch, offset, {}, Some(p.out.msg.candidate)) && m.firstTick == n.firstTick
            && |out| > 0 && out[0] == Outbound(Some(p.out.msg.candidate), Accept(p.out.msg.newEpoch, id))
  {
    hide Tick;
    var heard := OnMessage(n, p.from, p.out.msg, now).0;
    QuietTick(c, heard, now, id, role, p.out.msg.newEpoch, offset, Some(p.out.msg.candidate));
  }

  /** The second of two votes, where two are enough. */
  lemma {:induction false} WinningStep(c: Cluster, n: Node, p: Sent, now: nat, id: NodeId, voter: NodeId, epoch: Epoch, offset: nat)
    requires Is(c, n, id, Candidate, epoch, offset, {id}, Some(id)) && |c.peers| / 2 + 1 == 2
    requires p.out.msg == Accept(epoch, voter) && voter != id
    ensures var (m, out) := NodeStep(n, Pump(id, p, now, 0));
            && Is(c, m, id, Primary, epoch, offset, {}, Some(id)) && m.firstTick.Some?
            && Outbound(None, Announce(epoch, id)) in out
  {
    hide Tick;
    var (heard, replies) := OnMessage(n, p.from, p.out.msg, now);
    assert |{id} + {voter}| == 2;
    WinningTick(c, heard, now, id, epoch, offset, {id} + {voter});
    assert replies == [];
  }

  lemma {:induction false} RestartStep(c: Cluster, n: Node, id: NodeId, role: Role, epoch: Epoch, offset: nat, votes: set<NodeId>,
                                       votedFor: Option<NodeId>)
    requires Is(c, n, id, role, epoch, offset, votes, votedFor)
    ensures var m := NodeStep(n, Restart(id)).0; Is(c, m, id, Replica, epoch, 0, {}, votedFor) && m.firstTick == None
  {
  }
}
