/** A run of two nodes that ends with both of them primary of epoch 3. */
module ElectCounterexample {
  import opened Bytes
  import opened Elector
  import opened ElectRuns
  import opened ElectSafety

  const PAIR := Cluster([1, 2], TIMES, None)

  const FirstOffer := Sent(2, Outbound(None, Offer(2, 2, 1)))
  const FirstVote := Sent(1, Outbound(Some(2), Accept(2, 1)))
  const SecondOffer := Sent(1, Outbound(None, Offer(3, 1, 1)))
  const SecondVote := Sent(2, Outbound(Some(1), Accept(3, 2)))

  /** Node 2 is elected in epoch 2, node 1 misses its announcement and stands in epoch 3, and node 2 votes for it. */
  const RUN := [
    Timeout(1, 0, 0),
    Replicate(2, 1),
    Timeout(2, 0, 0),
    Timeout(2, 5000, 0),
    Pump(1, FirstOffer, 1, 0),
    Pump(2, FirstVote, 5000, 0),
    Replicate(1, 1),
    Timeout(1, 5000, 0),
    Pump(2, SecondOffer, 5000, 0),
    Pump(1, SecondVote, 5000, 0)
  ]

  lemma {:induction false} NodeTwoStands()
    ensures var w := Execute(PAIR, RUN[..4]);
            && w.nodes.Keys == {1, 2} && FirstOffer in w.log
            && Is(PAIR, w.nodes[1], 1, Replica, 1, 0, {}, None) && w.nodes[1].firstTick == Some(0)
            && Is(PAIR, w.nodes[2], 2, Candidate, 2, 1, {2}, Some(2))
  {
    hide Execute, Tick, Start, NodeStep;
    StartOfRun();
    assert RUN[..0] == [];
    var w0 := Execute(PAIR, RUN[..0]);
    TakeOne(0); QuietTick(PAIR, w0.nodes[1], 0, 1, Replica, 1, 0, None); StepIsTick(w0.nodes[1], RUN[0]);
    var w1 := Execute(PAIR, RUN[..1]);
    TakeOne(1); StepIsReplicate(w1.nodes[2], RUN[1]);
    var w2 := Execute(PAIR, RUN[..2]);
    TakeOne(2); QuietTick(PAIR, w2.nodes[2], 0, 2, Replica, 1, 1, None); StepIsTick(w2.nodes[2], RUN[2]);
    var w3 := Execute(PAIR, RUN[..3]);
    TakeOne(3); StandingTick(PAIR, w3.nodes[2], 2, 1, 1, None); StepIsTick(w3.nodes[2], RUN[3]);
  }

  /** The first half: node 2 is primary of epoch 2 and node 1 has voted for it. */
  lemma {:induction false} NodeTwoWins()
    ensures var w := Execute(PAIR, RUN[..6]);
            && w.nodes.Keys == {1, 2}
            && Is(PAIR, w.nodes[1], 1, Replica, 2, 0, {}, Some(2)) && w.nodes[1].firstTick == Some(0)
            && Is(PAIR, w.nodes[2], 2, Primary, 2, 1, {}, Some(2)) && w.nodes[2].firstTick.Some?
  {
    hide Execute, Tick, NodeStep;
    NodeTwoStands();
    var w4 := Execute(PAIR, RUN[..4]);
    TakeOne(4); VotingStep(PAIR, w4.nodes[1], FirstOffer, 1, 1, Replica, 1, 0, None);
    var w5 := Execute(PAIR, RUN[..5]);
    assert FirstVote in w5.log;
    TakeOne(5); WinningStep(PAIR, w5.nodes[2], FirstVote, 5000, 2, 1, 2, 1);
  }

  lemma {:induction false} StartOfRun()
    ensures var w := Execute(PAIR, []);
            w.nodes.Keys == {1, 2} && Is(PAIR, w.nodes[1], 1, Replica, 1, 0, {}, None) && Is(PAIR, w.nodes[2], 2, Replica, 1, 0, {}, None)
            && w.nodes[1].firstTick == None && w.nodes[2].firstTick == None
  {
    assert Members(PAIR) == {1, 2} by {
      assert PAIR.peers[0] == 1 && PAIR.peers[1] == 2;
    }
  }

  lemma {:induction false} TakeOne(k: nat)
    requires k < |RUN| && Enabled(Execute(PAIR, RUN[..k]), RUN[k])
    ensures var w, w', a := Execute(PAIR, RUN[..k]), Execute(PAIR, RUN[..k + 1]), RUN[k];
            var (m, out) := NodeStep(w.nodes[a.node], a);
            && w'.nodes == w.nodes[a.node := m] && w.log <= w'.log
            && forall i :: 0 <= i < |out| ==> Sent(a.node, out[i]) in w'.log
  {
    assert RUN[..k + 1] == RUN[..k] + [RUN[k]];
    OneMore(PAIR, RUN[..k], RUN[k]);
  }

  /** A primary that votes stays primary in the epoch it voted in, so two primaries can share an epoch. */
  lemma {:induction false} TwoPrimariesShareAnEpoch()
    ensures var w := Execute(PAIR, RUN);
            && 1 in w.nodes && w.nodes[1].role == Primary && w.nodes[1].epoch == 3
            && 2 in w.nodes && w.nodes[2].role == Primary && w.nodes[2].epoch == 3
  {
    hide Execute, Tick, NodeStep;
    NodeTwoWins();
    var w6 := Execute(PAIR, RUN[..6]);
    TakeOne(6); StepIsReplicate(w6.nodes[1], RUN[6]);
    var w7 := Execute(PAIR, RUN[..7]);
    TakeOne(7); StandingTick(PAIR, w7.nodes[1], 1, 2, 1, Some(2)); StepIsTick(w7.nodes[1], RUN[7]);
    var w8 := Execute(PAIR, RUN[..8]);
    assert SecondOffer in w8.log;
    TakeOne(8); VotingStep(PAIR, w8.nodes[2], SecondOffer, 5000, 2, Primary, 2, 1, Some(2));
    var w9 := Execute(PAIR, RUN[..9]);
    assert SecondVote in w9.log;
    TakeOne(9); WinningStep(PAIR, w9.nodes[1], SecondVote, 5000, 1, 2, 3, 1);
    assert RUN[..10] == RUN;
  }
}
