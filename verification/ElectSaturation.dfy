/** At the last 64-bit epoch, which no candidate can pass, two nodes of three can win one election each. */
module ElectSaturation {
  import opened Bytes
  import opened Elector
  import opened ElectRuns
  import opened ElectSafety

  const TRIO := Cluster([1, 2, 3], TIMES, None)

  const OfferOfOne := Sent(1, Outbound(None, Offer(MAX_EPOCH, 1, 0)))
  const VoteOfThree := Sent(3, Outbound(Some(1), Accept(MAX_EPOCH, 3)))
  const OfferOfThree := Sent(3, Outbound(None, Offer(MAX_EPOCH, 3, 1)))
  const VoteOfTwo := Sent(2, Outbound(Some(3), Accept(MAX_EPOCH, 2)))

  /** A node that has just started. */
  predicate Fresh(n: Node, id: NodeId, epoch: Epoch) {
    Is(TRIO, n, id, Replica, epoch, 0, {}, n.saved.votedFor) && n.firstTick == None
  }

  /** Node 1 has reached epoch e alone. */
  predicate Climbed(w: World, e: Epoch) {
    w.nodes.Keys == {1, 2, 3} && Fresh(w.nodes[1], 1, e) && Fresh(w.nodes[2], 2, 1) && Fresh(w.nodes[3], 3, 1)
  }

  lemma {:induction false} StartOfRun()
    ensures Climbed(Execute(TRIO, []), 1)
  {
    assert Members(TRIO) == {1, 2, 3} by {
      assert TRIO.peers[0] == 1 && TRIO.peers[1] == 2 && TRIO.peers[2] == 3;
    }
  }

  /** A first tick, and one five seconds later, at which the node stands. */
  lemma {:induction false} StandUp(s: seq<Action>, id: NodeId, e: Epoch, votedFor: Option<NodeId>) returns (s': seq<Action>)
    requires var w := Execute(TRIO, s);
             id in w.nodes && Is(TRIO, w.nodes[id], id, Replica, e, 0, {}, votedFor) && w.nodes[id].firstTick == None
    ensures var w, w' := Execute(TRIO, s), Execute(TRIO, s');
            && w'.nodes.Keys == w.nodes.Keys && w.log <= w'.log
            && (forall k :: k in w.nodes && k != id ==> w'.nodes[k] == w.nodes[k])
            && Is(TRIO, w'.nodes[id], id, Candidate, NextEpoch(e), 0, {id}, Some(id))
            && Sent(id, Outbound(None, Offer(NextEpoch(e), id, 0))) in w'.log
  {
    hide Execute, Tick, NodeStep;
    var n := Execute(TRIO, s).nodes[id];
    var a, b := Timeout(id, 0, 0), Timeout(id, 5000, 0);
    OneMore(TRIO, s, a);
    QuietTick(TRIO, n, 0, id, Replica, e, 0, votedFor);
    StepIsTick(n, a);
    var m := Execute(TRIO, s + [a]).nodes[id];
    OneMore(TRIO, s + [a], b);
    StandingTick(TRIO, m, id, e, 0, votedFor);
    StepIsTick(m, b);
    s' := s + [a] + [b];
  }

  /** Standing and restarting, over and over, takes node 1 to any epoch. */
  lemma {:induction false} Climb(e: Epoch) returns (s: seq<Action>)
    requires 1 <= e
    ensures Climbed(Execute(TRIO, s), e)
    decreases e
  {
    hide Execute, Tick, NodeStep;
    if e == 1 {
      s := [];
      StartOfRun();
    } else {
      var r := Climb(e - 1);
      r := StandUp(r, 1, e - 1, Execute(TRIO, r).nodes[1].saved.votedFor);
      var n := Execute(TRIO, r).nodes[1];
      OneMore(TRIO, r, Restart(1));
      RestartStep(TRIO, n, 1, Candidate, e, 0, {1}, Some(1));
      s := r + [Restart(1)];
    }
  }

  /** A fresh node ticks once and then votes for an offer of the last epoch. */
  lemma {:induction false} Vote(s: seq<Action>, id: NodeId, offer: Sent) returns (s': seq<Action>)
    requires var w := Execute(TRIO, s);
             id in w.nodes && Fresh(w.nodes[id], id, 1) && Deliverable(w, offer, id)
    requires offer.out.msg.Offer? && offer.out.msg.newEpoch == MAX_EPOCH
    requires offer.out.msg.offset > 0 || id >= offer.out.msg.candidate
    ensures var w, w', k := Execute(TRIO, s), Execute(TRIO, s'), offer.out.msg.candidate;
            && w'.nodes.Keys == w.nodes.Keys && w.log <= w'.log
            && (forall j :: j in w.nodes && j != id ==> w'.nodes[j] == w.nodes[j])
            && Is(TRIO, w'.nodes[id], id, Replica, MAX_EPOCH, 0, {}, Some(k)) && w'.nodes[id].firstTick == Some(0)
            && Sent(id, Outbound(Some(k), Accept(MAX_EPOCH, id))) in w'.log
  {
    hide Execute, Tick, NodeStep;
    var n := Execute(TRIO, s).nodes[id];
    var a, b := Timeout(id, 0, 0), Pump(id, offer, 1, 0);
    OneMore(TRIO, s, a);
    QuietTick(TRIO, n, 0, id, Replica, 1, 0, n.saved.votedFor);
    StepIsTick(n, a);
    var m := Execute(TRIO, s + [a]).nodes[id];
    OneMore(TRIO, s + [a], b);
    VotingStep(TRIO, m, offer, 1, id, Replica, 1, 0, m.saved.votedFor);
    s' := s + [a] + [b];
  }

  /** A candidate with its own vote wins with a second one. */
  lemma {:induction false} Win(s: seq<Action>, id: NodeId, offset: nat, vote: Sent) returns (s': seq<Action>)
    requires var w := Execute(TRIO, s);
             && id in w.nodes && Is(TRIO, w.nodes[id], id, Candidate, MAX_EPOCH, offset, {id}, Some(id))
             && Deliverable(w, vote, id)
    requires vote.out.msg.Accept? && vote.out.msg.epoch == MAX_EPOCH && vote.out.msg.accepter != id
    ensures var w, w' := Execute(TRIO, s), Execute(TRIO, s');
            && w'.nodes.Keys == w.nodes.Keys && w.log <= w'.log
            && (forall j :: j in w.nodes && j != id ==> w'.nodes[j] == w.nodes[j])
            && Wins(w'.log, id, MAX_EPOCH)
  {
    hide Execute, Tick, NodeStep;
    var n := Execute(TRIO, s).nodes[id];
    OneMore(TRIO, s, Pump(id, vote, 5000, 0));
    WinningStep(TRIO, n, vote, 5000, id, vote.out.msg.accepter, MAX_EPOCH, offset);
    s' := s + [Pump(id, vote, 5000, 0)];
  }

  /** Node 3, which has voted for node 1 in the last epoch, stands in that same epoch. */
  lemma {:induction false} StandAgain(s: seq<Action>) returns (s': seq<Action>)
    requires var w := Execute(TRIO, s);
             3 in w.nodes && Is(TRIO, w.nodes[3], 3, Replica, MAX_EPOCH, 0, {}, Some(1)) && w.nodes[3].firstTick == Some(0)
    ensures var w, w' := Execute(TRIO, s), Execute(TRIO, s');
            && w'.nodes.Keys == w.nodes.Keys && w.log <= w'.log
            && (forall j :: j in w.nodes && j != 3 ==> w'.nodes[j] == w.nodes[j])
            && Is(TRIO, w'.nodes[3], 3, Candidate, MAX_EPOCH, 1, {3}, Some(3)) && OfferOfThree in w'.log
  {
    hide Execute, Tick, NodeStep;
    var n := Execute(TRIO, s).nodes[3];
    var a, b := Replicate(3, 1), Timeout(3, 5000, 0);
    OneMore(TRIO, s, a);
    StepIsReplicate(n, a);
    var m := Execute(TRIO, s + [a]).nodes[3];
    OneMore(TRIO, s + [a], b);
    StandingTick(TRIO, m, 3, MAX_EPOCH, 1, Some(1));
    StepIsTick(m, b);
    s' := s + [a] + [b];
  }

  /** Node 1 has won the last epoch with node 3's vote, and node 2 has heard of nothing. */
  predicate OneHasWon(w: World) {
    && w.nodes.Keys == {1, 2, 3} && Wins(w.log, 1, MAX_EPOCH) && Fresh(w.nodes[2], 2, 1)
    && Is(TRIO, w.nodes[3], 3, Replica, MAX_EPOCH, 0, {}, Some(1)) && w.nodes[3].firstTick == Some(0)
  }

  lemma {:induction false} FirstWin() returns (s: seq<Action>)
    ensures OneHasWon(Execute(TRIO, s))
  {
    hide Execute, Is;
    s := Climb(MAX_EPOCH - 1);
    s := StandUp(s, 1, MAX_EPOCH - 1, Execute(TRIO, s).nodes[1].saved.votedFor);
    s := Vote(s, 3, OfferOfOne);
    assert VoteOfThree in Execute(TRIO, s).log;
    s := Win(s, 1, 0, VoteOfThree);
  }

  /** So the bound on the epoch in the safety theorem is needed: some run has two winners of the last epoch. */
  lemma {:induction false} TwoWinnersOfTheLastEpoch() returns (s: seq<Action>)
    ensures ValidCluster(TRIO)
    ensures Wins(Execute(TRIO, s).log, 1, MAX_EPOCH) && Wins(Execute(TRIO, s).log, 3, MAX_EPOCH)
  {
    hide Execute, Is;
    s := FirstWin();
    s := StandAgain(s);
    s := Vote(s, 2, OfferOfThree);
    assert VoteOfTwo in Execute(TRIO, s).log;
    s := Win(s, 3, 1, VoteOfTwo);
  }
}
