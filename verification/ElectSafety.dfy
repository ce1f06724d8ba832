/**
 A cluster of electors over a network that may lose, delay, duplicate and reorder messages,
 with crashes and restarts: at most one node wins each epoch. A node handles a message and
 then ticks as one step, as the transport's orchestrator runs it.
 */
module ElectSafety {
  import opened Bytes
  import opened Elector

  datatype Sent = Sent(from: NodeId, out: Outbound)

  /** The nodes, and every message ever sent. */
  datatype World = World(nodes: map<NodeId, Node>, log: set<Sent>)

  /** The operator's settings: the same peer list on every node, and the node that boots as primary, if any. */
  datatype Cluster = Cluster(peers: seq<NodeId>, timeouts: Timeouts, boot: Option<NodeId>)

  ghost predicate ValidCluster(c: Cluster) {
    forall i, j :: 0 <= i < j < |c.peers| ==> c.peers[i] != c.peers[j]
  }

  function Members(c: Cluster): set<NodeId> {
    set i | 0 <= i < |c.peers| :: c.peers[i]
  }

  function Initial(c: Cluster): World {
    World(map id | id in Members(c) ::
            Start(id, c.peers, c.timeouts, if c.boot == Some(id) then Primary else Replica, Saved(0, None)), {})
  }

  datatype Action =
    | Pump(node: NodeId, packet: Sent, now: nat, jitter: nat)
    | Timeout(node: NodeId, now: nat, jitter: nat)
    | Restart(node: NodeId)
    | CrashBeforeTick(node: NodeId, packet: Sent, now: nat)
    | Replicate(node: NodeId, offset: nat)

  /** A packet may reach a node it was addressed or broadcast to, at any time and any number of times. */
  predicate Deliverable(w: World, p: Sent, to: NodeId) {
    p in w.log && p.from != to && (p.out.to == None || p.out.to == Some(to))
  }

  predicate Enabled(w: World, a: Action) {
    && a.node in w.nodes
    && (a.Pump? || a.CrashBeforeTick? ==> Deliverable(w, a.packet, a.node))
  }

  /** A restarted server keeps its durable record and starts as a replica. */
  function Restarted(n: Node): Node {
    Start(n.id, n.peers, n.timeouts, Replica, n.saved)
  }

  /** One step of one node: its new state and what it sends. */
  function NodeStep(n: Node, a: Action): (Node, seq<Outbound>) {
    match a
    case Pump(_, p, now, jitter) =>
      var (heard, replies) := OnMessage(n, p.from, p.out.msg, now);
      var (ticked, out) := Tick(heard, now, jitter);
      (ticked, replies + out)
    case Timeout(_, now, jitter) => Tick(n, now, jitter)
    case Restart(_) => (Restarted(n), [])
    case CrashBeforeTick(_, p, now) => (Restarted(OnMessage(n, p.from, p.out.msg, now).0), [])
    case Replicate(_, offset) => (n.(offset := offset), [])
  }

  function Logged(id: NodeId, out: seq<Outbound>): set<Sent> {
    set i | 0 <= i < |out| :: Sent(id, out[i])
  }

  function Apply(w: World, a: Action): World
    requires Enabled(w, a)
  {
    var (n, out) := NodeStep(w.nodes[a.node], a);
    World(w.nodes[a.node := n], w.log + Logged(a.node, out))
  }

  function Execute(c: Cluster, schedule: seq<Action>): World {
    if schedule == [] then Initial(c)
    else
      Next(Execute(c, schedule[..|schedule| - 1]), schedule[|schedule| - 1])
  }

  /** The step, if it is enabled. */
  function Next(w: World, a: Action): World {
    if Enabled(w, a) then Apply(w, a) else w
  }

  // --- Ballots and wins, as the log records them ---------------------------------------------

  /** voter sent its ACCEPT of epoch e to candidate, or offered itself in e. */
  ghost predicate Ballot(log: set<Sent>, voter: NodeId, e: Epoch, candidate: NodeId) {
    || Sent(voter, Outbound(Some(candidate), Accept(e, voter))) in log
    || (voter == candidate && Offered(log, voter, e))
  }

  ghost predicate Offered(log: set<Sent>, id: NodeId, e: Epoch) {
    exists off: nat :: Sent(id, Outbound(None, Offer(e, id, off))) in log
  }

  /** id announced itself primary of epoch e. */
  predicate Wins(log: set<Sent>, id: NodeId, e: Epoch) {
    Sent(id, Outbound(None, Announce(e, id))) in log
  }

  // --- The invariant -------------------------------------------------------------------------

  /** Messages name their sender, ACCEPTs answer offers, and nobody votes twice below the last epoch. */
  ghost predicate HonestLog(c: Cluster, log: set<Sent>) {
    && (forall s :: s in log ==> s.from in Members(c) && Signed(s))
    && (forall v, e: Epoch, k :: Ballot(log, v, e, k) ==> Ballot(log, k, e, k))
    && (forall v, e: Epoch, k, l :: e < MAX_EPOCH && Ballot(log, v, e, k) && Ballot(log, v, e, l) ==> k == l)
    && (forall e: Epoch, k :: e < MAX_EPOCH && Wins(log, k, e) ==> Majority(c, log, e, k))
  }

  predicate Signed(s: Sent) {
    match s.out.msg
    case Hb(_, id, _, _) => id == s.from
    case Offer(_, id, _) => id == s.from && s.out.to == None
    case Accept(_, id) => id == s.from && s.out.to.Some?
    case Announce(_, id) => id == s.from && s.out.to == None
  }

  ghost predicate VotedFor(c: Cluster, log: set<Sent>, e: Epoch, k: NodeId, voters: set<NodeId>) {
    voters <= Members(c) && forall v :: v in voters ==> Ballot(log, v, e, k)
  }

  ghost predicate Majority(c: Cluster, log: set<Sent>, e: Epoch, k: NodeId) {
    exists voters :: VotedFor(c, log, e, k, voters) && |voters| >= |c.peers| / 2 + 1
  }

  /** What holds of a node even between a message and the tick that follows it. */
  ghost predicate NodeInv(c: Cluster, log: set<Sent>, n: Node) {
    && n.id in Members(c) && n.peers == c.peers && n.timeouts == c.timeouts
    && n.epoch == (if n.saved.epoch > 1 then n.saved.epoch else 1)
    && (n.lastAccept.Some? ==> n.lastAccept.value <= n.epoch)
    && (forall e: Epoch, k :: Ballot(log, n.id, e, k) ==> e <= n.epoch)
    && (n.role == Candidate ==> CandidateInv(c, log, n))
    && (n.role == Primary && n.epoch < MAX_EPOCH ==> PrimaryInv(c, log, n))
  }

  /** A candidate that still stands holds votes of its own epoch; one that voted away holds too few. */
  ghost predicate CandidateInv(c: Cluster, log: set<Sent>, n: Node) {
    && n.offerAt.Some? && n.saved.votedFor.Some?
    && (n.epoch < MAX_EPOCH ==>
          && Ballot(log, n.id, n.epoch, n.saved.votedFor.value)
          && (if n.saved.votedFor == Some(n.id) then VotedFor(c, log, n.epoch, n.id, n.votes) else |n.votes| < n.Quorum()))
  }

  /** A primary won its epoch, or booted as primary, or has since voted for another node. */
  ghost predicate PrimaryInv(c: Cluster, log: set<Sent>, n: Node) {
    match n.saved.votedFor
    case Some(k) => if k == n.id then Wins(log, n.id, n.epoch) else Ballot(log, n.id, n.epoch, k)
    case None => c.boot == Some(n.id) && n.epoch == 1
  }

  /** After a tick no candidate has a quorum left uncounted. */
  predicate Settled(n: Node) {
    n.role == Candidate ==> |n.votes| < n.Quorum()
  }

  ghost predicate Inv(c: Cluster, w: World) {
    && HonestLog(c, w.log)
    && (forall e: Epoch, v, k :: Ballot(w.log, v, e, k) ==> e >= 2)
    && forall id :: id in w.nodes ==> w.nodes[id].id == id && NodeInv(c, w.log, w.nodes[id]) && Settled(w.nodes[id])
  }

  // --- Growing the log -------------------------------------------------------------------------

  ghost predicate Honest(c: Cluster, log: set<Sent>) {
    HonestLog(c, log) && forall e: Epoch, v, k :: Ballot(log, v, e, k) ==> e >= 2
  }

  /** The ballot that one message casts. */
  predicate Casts(s: Sent, v: NodeId, e: Epoch, k: NodeId) {
    && v == s.from
    && (|| s.out == Outbound(Some(k), Accept(e, v))
        || (v == k && s.out.to == None && s.out.msg.Offer? && s.out.msg.newEpoch == e && s.out.msg.candidate == v))
  }

  lemma {:induction false} BallotsOfMore(log: set<Sent>, s: Sent, v: NodeId, e: Epoch, k: NodeId)
    ensures Ballot(log + {s}, v, e, k) <==> Ballot(log, v, e, k) || Casts(s, v, e, k)
  {
    if Casts(s, v, e, k) && s.out.msg.Offer? {
      assert Sent(v, Outbound(None, Offer(e, v, s.out.msg.offset))) in log + {s};
    }
    if v == k && Offered(log, v, e) {
      var off: nat :| Sent(v, Outbound(None, Offer(e, v, off))) in log;
      assert Sent(v, Outbound(None, Offer(e, v, off))) in log + {s};
    }
  }

  lemma {:induction false} MajorityGrows(c: Cluster, log: set<Sent>, s: Sent, e: Epoch, k: NodeId)
    requires Majority(c, log, e, k)
    ensures Majority(c, log + {s}, e, k)
  {
    var voters :| VotedFor(c, log, e, k, voters) && |voters| >= |c.peers| / 2 + 1;
    forall v | v in voters
      ensures Ballot(log + {s}, v, e, k)
    {
      BallotsOfMore(log, s, v, e, k);
    }
    assert VotedFor(c, log + {s}, e, k, voters);
  }

  /** A message that may be sent: signed, its vote new and for a node that stands, its win backed by a majority. */
  ghost predicate MaySend(c: Cluster, log: set<Sent>, s: Sent, epoch: Epoch) {
    && s.from in Members(c) && Signed(s)
    && (forall e: Epoch, k :: Ballot(log, s.from, e, k) ==> e <= epoch)
    && match s.out.msg
       case Hb(_, _, _, _) => true
       case Offer(e, _, _) => e >= 2 && (e == MAX_EPOCH || e > epoch)
       case Accept(e, _) => e >= 2 && e > epoch && Ballot(log, s.out.to.value, e, s.out.to.value)
       case Announce(e, _) => e < MAX_EPOCH ==> Majority(c, log, e, s.from)
  }

  lemma {:induction false} SendKeepsHonest(c: Cluster, log: set<Sent>, s: Sent, epoch: Epoch)
    requires Honest(c, log) && MaySend(c, log, s, epoch)
    ensures Honest(c, log + {s})
  {
    var more := log + {s};
    forall v, e: Epoch, k | Ballot(more, v, e, k)
      ensures Ballot(more, k, e, k) && e >= 2
      ensures forall l :: e < MAX_EPOCH && Ballot(more, v, e, l) ==> k == l
    {
      BallotsOfMore(log, s, v, e, k);
      BallotsOfMore(log, s, k, e, k);
      forall l | e < MAX_EPOCH && Ballot(more, v, e, l)
        ensures k == l
      {
        BallotsOfMore(log, s, v, e, l);
      }
    }
    forall e: Epoch, k | e < MAX_EPOCH && Wins(more, k, e)
      ensures Majority(c, more, e, k)
    {
      MajorityGrows(c, log, s, e, k);
    }
  }

  /** What another node sends does not touch a node's invariant. */
  lemma {:induction false} OthersKeepInv(c: Cluster, log: set<Sent>, s: Sent, n: Node)
    requires NodeInv(c, log, n) && (s.from != n.id || s.out.msg.Hb?)
    ensures NodeInv(c, log + {s}, n)
  {
    forall e: Epoch, k | Ballot(log + {s}, n.id, e, k)
      ensures e <= n.epoch
    {
      BallotsOfMore(log, s, n.id, e, k);
    }
    if n.saved.votedFor.Some? {
      BallotsOfMore(log, s, n.id, n.epoch, n.saved.votedFor.value);
      if n.role == Candidate && n.epoch < MAX_EPOCH && n.saved.votedFor == Some(n.id) {
        forall v | v in n.votes
          ensures Ballot(log + {s}, v, n.epoch, n.id)
        {
          BallotsOfMore(log, s, v, n.epoch, n.id);
        }
      }
    }
  }

  // --- One node's handlers --------------------------------------------------------------------------

  /** A node's part of the invariant, with the log that all nodes share. */
  ghost predicate Good(c: Cluster, log: set<Sent>, n: Node) {
    Honest(c, log) && NodeInv(c, log, n)
  }

  lemma {:induction false} HbKeeps(c: Cluster, log: set<Sent>, n: Node, from: NodeId, e: Epoch, role: Role, off: nat, now: nat)
    requires Good(c, log, n) && from != n.id
    ensures Good(c, log, OnHb(n, from, e, role, off, now)) && OnHb(n, from, e, role, off, now).epoch >= n.epoch
  {
  }

  lemma {:induction false} AnnounceKeeps(c: Cluster, log: set<Sent>, n: Node, e: Epoch, p: NodeId)
    requires Good(c, log, n) && p != n.id
    ensures Good(c, log, OnAnnounce(n, e, p)) && OnAnnounce(n, e, p).epoch >= n.epoch
  {
  }

  lemma {:induction false} OfferKeeps(c: Cluster, log: set<Sent>, n: Node, e: Epoch, k: NodeId, off: nat)
    requires Good(c, log, n) && Settled(n) && k != n.id && Accepts(n, e, k, off)
    requires Sent(k, Outbound(None, Offer(e, k, off))) in log
    ensures var (m, out) := OnOffer(n, e, k, off);
            |out| == 1 && m.epoch >= n.epoch && Good(c, log + {Sent(n.id, out[0])}, m)
  {
    var (m, out) := OnOffer(n, e, k, off);
    var s := Sent(n.id, out[0]);
    assert Ballot(log, k, e, k);
    SendKeepsHonest(c, log, s, n.epoch);
    forall e': Epoch, k' | Ballot(log + {s}, m.id, e', k')
      ensures e' <= m.epoch
    {
      BallotsOfMore(log, s, m.id, e', k');
    }
    BallotsOfMore(log, s, m.id, e, k);
  }

  lemma {:induction false} AcceptKeeps(c: Cluster, log: set<Sent>, n: Node, e: Epoch, v: NodeId)
    requires Good(c, log, n) && Sent(v, Outbound(Some(n.id), Accept(e, v))) in log
    ensures Good(c, log, OnAccept(n, e, v))
  {
    assert Ballot(log, v, e, n.id);
    assert Ballot(log, n.id, e, n.id);
  }

  function LogWith(log: set<Sent>, id: NodeId, out: seq<Outbound>): set<Sent> {
    log + Logged(id, out)
  }

  lemma {:induction false} LogWithOne(log: set<Sent>, id: NodeId, o: Outbound)
    ensures LogWith(log, id, [o]) == log + {Sent(id, o)}
    ensures LogWith(log, id, []) == log
  {
    assert Logged(id, [o]) == {Sent(id, o)} by { assert [o][0] == o; }
    assert Logged(id, []) == {};
  }

  lemma {:induction false} MessageKeeps(c: Cluster, w: World, n: Node, p: Sent, now: nat)
    requires Good(c, w.log, n) && Settled(n) && Deliverable(w, p, n.id)
    ensures var (m, out) := OnMessage(n, p.from, p.out.msg, now);
            m.id == n.id && m.epoch >= n.epoch && Good(c, LogWith(w.log, n.id, out), m)
  {
    assert Signed(p);
    LogWithOne(w.log, n.id, p.out);
    match p.out.msg
    case Hb(e, _, role, off) => HbKeeps(c, w.log, n, p.from, e, role, off, now);
    case Announce(e, k) => AnnounceKeeps(c, w.log, n, e, k);
    case Accept(e, v) =>
      assert p == Sent(v, Outbound(Some(n.id), Accept(e, v)));
      AcceptKeeps(c, w.log, n, e, v);
    case Offer(e, k, off) =>
      if Accepts(n, e, k, off) {
        assert p == Sent(k, Outbound(None, Offer(e, k, off)));
        OfferKeeps(c, w.log, n, e, k, off);
        LogWithOne(w.log, n.id, OnOffer(n, e, k, off).1[0]);
      }
  }

  lemma {:induction false} HeartbeatsKeep(c: Cluster, log: set<Sent>, n: Node, k: nat, now: nat)
    requires Good(c, log, n) && k <= |n.peers|
    ensures Good(c, LogWith(log, n.id, Heartbeats(n, k, now).1), n)
    ensures forall i :: 0 <= i < |Heartbeats(n, k, now).1| ==> Heartbeats(n, k, now).1[i].msg.Hb?
  {
    LogWithOne(log, n.id, Outbound(None, Hb(0, 0, Replica, 0)));
    if k > 0 {
      HeartbeatsKeep(c, log, n, k - 1, now);
      var before, after := Heartbeats(n, k - 1, now).1, Heartbeats(n, k, now).1;
      if after != before {
        var o := after[|after| - 1];
        assert after == before + [o];
        var s := Sent(n.id, o);
        LoggedMore(log, n.id, before, [o]);
        LogWithOne(LogWith(log, n.id, before), n.id, o);
        SendKeepsHonest(c, LogWith(log, n.id, before), s, n.epoch);
        OthersKeepInv(c, LogWith(log, n.id, before), s, n);
      }
    }
  }

  lemma {:induction false} LoggedMore(log: set<Sent>, id: NodeId, a: seq<Outbound>, b: seq<Outbound>)
    ensures LogWith(log, id, a + b) == LogWith(LogWith(log, id, a), id, b)
  {
    forall s | s in Logged(id, b)
      ensures s in Logged(id, a + b)
    {
      var i :| 0 <= i < |b| && s == Sent(id, b[i]);
      assert (a + b)[|a| + i] == b[i];
    }
    forall s | s in Logged(id, a)
      ensures s in Logged(id, a + b)
    {
      var i :| 0 <= i < |a| && s == Sent(id, a[i]);
      assert (a + b)[i] == a[i];
    }
  }

  lemma {:induction false} StartElectionKeeps(c: Cluster, log: set<Sent>, n: Node, now: nat)
    requires Good(c, log, n)
    ensures var (m, out) := StartElection(n, now);
            m.id == n.id && m.epoch >= n.epoch && Good(c, LogWith(log, n.id, out), m)
  {
    hide MayStandForElection;
    var (m, out) := StartElection(n, now);
    if MayStandForElection(n, now) {
      var s := Sent(n.id, out[0]);
      LogWithOne(log, n.id, out[0]);
      SendKeepsHonest(c, log, s, n.epoch);
      forall e: Epoch, k | Ballot(log + {s}, m.id, e, k)
        ensures e <= m.epoch
      {
        BallotsOfMore(log, s, m.id, e, k);
      }
      BallotsOfMore(log, s, m.id, m.epoch, m.id);
    } else {
      LogWithOne(log, n.id, Outbound(None, Hb(0, 0, Replica, 0)));
    }
  }

  lemma {:induction false} FinishKeeps(c: Cluster, log: set<Sent>, n: Node, now: nat, jitter: nat)
    requires Good(c, log, n)
    ensures var (m, out) := FinishCandidacy(n, now, jitter);
            m.id == n.id && m.epoch == n.epoch && Good(c, LogWith(log, n.id, out), m) && Settled(m)
  {
    var (m, out) := FinishCandidacy(n, now, jitter);
    if out == [] {
      LogWithOne(log, n.id, Outbound(None, Hb(0, 0, Replica, 0)));
    } else {
      var s := Sent(n.id, out[0]);
      LogWithOne(log, n.id, out[0]);
      if n.epoch < MAX_EPOCH {
        assert VotedFor(c, log, n.epoch, n.id, n.votes);
      }
      SendKeepsHonest(c, log, s, n.epoch);
      forall e: Epoch, k | Ballot(log + {s}, m.id, e, k)
        ensures e <= m.epoch
      {
        BallotsOfMore(log, s, m.id, e, k);
      }
    }
  }

  lemma {:induction false} TickKeeps(c: Cluster, log: set<Sent>, n: Node, now: nat, jitter: nat)
    requires Good(c, log, n)
    ensures var (m, out) := Tick(n, now, jitter);
            m.id == n.id && m.epoch >= n.epoch && Good(c, LogWith(log, n.id, out), m) && Settled(m)
  {
    hide StartElection, FinishCandidacy, Honest;
    var started := n.(firstTick := if n.firstTick.None? then Some(now) else n.firstTick);
    var (sent, beats) := Heartbeats(started, |n.peers|, now);
    HeartbeatsKeep(c, log, started, |n.peers|, now);
    var log1 := LogWith(log, n.id, beats);
    var ready := started.(hbSent := sent);
    StartElectionKeeps(c, log1, ready, now);
    var (standing, offers) := StartElection(ready, now);
    var log2 := LogWith(log1, n.id, offers);
    FinishKeeps(c, log2, standing, now, jitter);
    var announces := FinishCandidacy(standing, now, jitter).1;
    LoggedMore(log, n.id, beats, offers);
    LoggedMore(log, n.id, beats + offers, announces);
  }

  lemma {:induction false} RestartKeeps(c: Cluster, log: set<Sent>, more: set<Sent>, n: Node, m: Node)
    requires Good(c, log, n) && NodeInv(c, more, m) && m.id == n.id && m.epoch >= n.epoch
    ensures Good(c, log, Restarted(m)) && Settled(Restarted(m)) && Restarted(m).epoch == m.epoch
  {
  }

  /** One step of one node keeps its invariant, the shared log's, and never lowers its epoch. */
  lemma {:induction false} NodeStepKeeps(c: Cluster, w: World, a: Action)
    requires Inv(c, w) && Enabled(w, a)
    ensures var n := w.nodes[a.node];
            var (m, out) := NodeStep(n, a);
            m.id == n.id && m.epoch >= n.epoch && Good(c, LogWith(w.log, a.node, out), m) && Settled(m)
  {
    hide OnMessage, Tick, HonestLog, LogWith;
    var n := w.nodes[a.node];
    LogWithOne(w.log, n.id, Outbound(None, Hb(0, 0, Replica, 0)));
    match a
    case Timeout(_, now, jitter) => TickKeeps(c, w.log, n, now, jitter);
    case Restart(_) => RestartKeeps(c, w.log, w.log, n, n);
    case Replicate(_, _) =>
    case CrashBeforeTick(_, p, now) =>
      MessageKeeps(c, w, n, p, now);
      var (m, out) := OnMessage(n, p.from, p.out.msg, now);
      RestartKeeps(c, w.log, LogWith(w.log, n.id, out), n, m);
    case Pump(_, p, now, jitter) =>
      MessageKeeps(c, w, n, p, now);
      var (heard, replies) := OnMessage(n, p.from, p.out.msg, now);
      TickKeeps(c, LogWith(w.log, n.id, replies), heard, now, jitter);
      LoggedMore(w.log, n.id, replies, Tick(heard, now, jitter).1);
  }

  lemma {:induction false} OthersKeepAll(c: Cluster, log: set<Sent>, id: NodeId, out: seq<Outbound>, n: Node)
    requires NodeInv(c, log, n) && id != n.id
    ensures NodeInv(c, LogWith(log, id, out), n)
    decreases |out|
  {
    hide NodeInv;
    LogWithOne(log, id, Outbound(None, Hb(0, 0, Replica, 0)));
    if out != [] {
      var front, last := out[..|out| - 1], out[|out| - 1];
      OthersKeepAll(c, log, id, front, n);
      OthersKeepInv(c, LogWith(log, id, front), Sent(id, last), n);
      assert out == front + [last];
      LoggedMore(log, id, front, [last]);
      LogWithOne(LogWith(log, id, front), id, last);
    }
  }

  lemma {:induction false} StepKeepsInv(c: Cluster, w: World, a: Action)
    requires Inv(c, w) && Enabled(w, a)
    ensures Inv(c, Apply(w, a))
  {
    hide NodeStep, HonestLog, NodeInv;
    NodeStepKeeps(c, w, a);
    var (m, out) := NodeStep(w.nodes[a.node], a);
    var w' := Apply(w, a);
    assert w'.log == LogWith(w.log, a.node, out);
    forall id | id in w'.nodes
      ensures w'.nodes[id].id == id && NodeInv(c, w'.log, w'.nodes[id]) && Settled(w'.nodes[id])
    {
      if id != a.node {
        OthersKeepAll(c, w.log, a.node, out, w.nodes[id]);
      }
    }
  }

  lemma {:induction false} InitialInv(c: Cluster)
    ensures Inv(c, Initial(c))
  {
    forall v, e: Epoch, k
      ensures !Ballot({}, v, e, k)
    {
    }
  }

  lemma {:induction false} EveryRunKeepsInv(c: Cluster, schedule: seq<Action>)
    ensures Inv(c, Execute(c, schedule))
    decreases |schedule|
  {
    hide Inv, Apply, Enabled;
    if schedule == [] {
      InitialInv(c);
    } else {
      EveryRunKeepsInv(c, schedule[..|schedule| - 1]);
      var w := Execute(c, schedule[..|schedule| - 1]);
      if Enabled(w, schedule[|schedule| - 1]) {
        StepKeepsInv(c, w, schedule[|schedule| - 1]);
      }
    }
  }

  // --- Main results ---------------------------------------------------------------------------------

  lemma {:induction false} MembersCount(c: Cluster)
    requires ValidCluster(c)
    ensures |Members(c)| == |c.peers|
  {
    DistinctCount(c.peers);
  }

  lemma {:induction false} DistinctCount(s: seq<NodeId>)
    requires forall i, j :: 0 <= i < j < |s| ==> s[i] != s[j]
    ensures |set i | 0 <= i < |s| :: s[i]| == |s|
  {
    var all := set i | 0 <= i < |s| :: s[i];
    if s == [] {
      assert all == {};
    } else {
      var front := s[..|s| - 1];
      DistinctCount(front);
      var fewer := set i | 0 <= i < |front| :: front[i];
      forall x
        ensures x in all <==> x in fewer || x == s[|s| - 1]
      {
        if x in fewer {
          var i :| 0 <= i < |front| && front[i] == x;
          assert s[i] == x;
        }
        if x in all && x != s[|s| - 1] {
          var i :| 0 <= i < |s| && s[i] == x;
          assert front[i] == x;
        }
        if x == s[|s| - 1] {
          assert s[|s| - 1] in all;
        }
      }
      assert all == fewer + {s[|s| - 1]};
      assert s[|s| - 1] !in fewer;
    }
  }

  lemma {:induction false} MajoritiesMeet(all: set<NodeId>, a: set<NodeId>, b: set<NodeId>)
    requires a <= all && b <= all && |a| >= |all| / 2 + 1 && |b| >= |all| / 2 + 1
    ensures a * b != {}
  {
    assert |a + b| + |a * b| == |a| + |b|;
    assert all == (a + b) + (all - (a + b));
  }

  /** No node votes for two candidates in one epoch, crashes and restarts included. */
  lemma {:induction false} OneVotePerEpoch(c: Cluster, schedule: seq<Action>, v: NodeId, e: Epoch, k: NodeId, l: NodeId)
    requires e < MAX_EPOCH
    requires Ballot(Execute(c, schedule).log, v, e, k) && Ballot(Execute(c, schedule).log, v, e, l)
    ensures k == l
  {
    hide Execute;
    EveryRunKeepsInv(c, schedule);
  }

  lemma {:induction false} OneWinner(c: Cluster, w: World, e: Epoch, k: NodeId, l: NodeId)
    requires Inv(c, w) && ValidCluster(c) && e < MAX_EPOCH && Wins(w.log, k, e) && Wins(w.log, l, e)
    ensures k == l
  {
    MembersCount(c);
    assert Majority(c, w.log, e, k) && Majority(c, w.log, e, l);
    var a :| VotedFor(c, w.log, e, k, a) && |a| >= |c.peers| / 2 + 1;
    var b :| VotedFor(c, w.log, e, l, b) && |b| >= |c.peers| / 2 + 1;
    MajoritiesMeet(Members(c), a, b);
    var v :| v in a * b;
    assert Ballot(w.log, v, e, k) && Ballot(w.log, v, e, l);
  }

  /** Election safety: in every run at most one node announces itself primary of an epoch. */
  lemma {:induction false} ElectionSafety(c: Cluster, schedule: seq<Action>, e: Epoch, k: NodeId, l: NodeId)
    requires ValidCluster(c) && e < MAX_EPOCH
    requires Wins(Execute(c, schedule).log, k, e) && Wins(Execute(c, schedule).log, l, e)
    ensures k == l
  {
    hide Execute, Inv;
    EveryRunKeepsInv(c, schedule);
    OneWinner(c, Execute(c, schedule), e, k, l);
  }

  /** id is the primary of epoch e: it won the election of e, or e is the first epoch and it booted as primary. */
  predicate Elected(c: Cluster, log: set<Sent>, id: NodeId, e: Epoch) {
    Wins(log, id, e) || (c.boot == Some(id) && e == 1)
  }

  /** Each epoch has at most one elected primary. */
  lemma {:induction false} OneElectedPerEpoch(c: Cluster, schedule: seq<Action>, e: Epoch, k: NodeId, l: NodeId)
    requires ValidCluster(c) && e < MAX_EPOCH
    requires Elected(c, Execute(c, schedule).log, k, e) && Elected(c, Execute(c, schedule).log, l, e)
    ensures k == l
  {
    hide Execute;
    var log := Execute(c, schedule).log;
    EveryRunKeepsInv(c, schedule);
    if Wins(log, k, e) && Wins(log, l, e) {
      ElectionSafety(c, schedule, e, k, l);
    } else if Wins(log, k, e) {
      WinnersOffered(c, log, e, k);
    } else if Wins(log, l, e) {
      WinnersOffered(c, log, e, l);
    }
  }

  /**
   A node in the primary role is the elected primary of its epoch exactly when its saved vote is
   not for another node: a primary that votes takes the new epoch and keeps the role.
   */
  lemma {:induction false} PrimaryIsElectedExactlyWhenLoyal(c: Cluster, schedule: seq<Action>, k: NodeId)
    requires k in Execute(c, schedule).nodes && Execute(c, schedule).nodes[k].role == Primary
    requires Execute(c, schedule).nodes[k].epoch < MAX_EPOCH
    ensures var w := Execute(c, schedule);
            Elected(c, w.log, k, w.nodes[k].epoch) <==> w.nodes[k].saved.votedFor in {None, Some(k)}
  {
    hide Execute;
    var w := Execute(c, schedule);
    EveryRunKeepsInv(c, schedule);
    var n := w.nodes[k];
    assert PrimaryInv(c, w.log, n);
    if n.saved.votedFor !in {None, Some(k)} {
      var l := n.saved.votedFor.value;
      assert Ballot(w.log, k, n.epoch, l);
      if Wins(w.log, k, n.epoch) {
        WinnersOffered(c, w.log, n.epoch, k);
        assert false;
      }
    }
  }

  /** Two primaries share an epoch only if one of them has voted for another node in it. */
  lemma {:induction false} SharedEpochMeansAVoteWasCast(c: Cluster, schedule: seq<Action>, k: NodeId, l: NodeId)
    requires ValidCluster(c) && k != l
    requires k in Execute(c, schedule).nodes && Execute(c, schedule).nodes[k].role == Primary
    requires l in Execute(c, schedule).nodes && Execute(c, schedule).nodes[l].role == Primary
    requires Execute(c, schedule).nodes[k].epoch == Execute(c, schedule).nodes[l].epoch < MAX_EPOCH
    ensures var w := Execute(c, schedule);
            w.nodes[k].saved.votedFor !in {None, Some(k)} || w.nodes[l].saved.votedFor !in {None, Some(l)}
  {
    hide Execute;
    var w := Execute(c, schedule);
    PrimaryIsElectedExactlyWhenLoyal(c, schedule, k);
    PrimaryIsElectedExactlyWhenLoyal(c, schedule, l);
    if Elected(c, w.log, k, w.nodes[k].epoch) && Elected(c, w.log, l, w.nodes[k].epoch) {
      OneElectedPerEpoch(c, schedule, w.nodes[k].epoch, k, l);
      assert false;
    }
  }

  lemma {:induction false} WinnersOffered(c: Cluster, log: set<Sent>, e: Epoch, k: NodeId)
    requires Honest(c, log) && Wins(log, k, e) && e < MAX_EPOCH
    ensures e >= 2 && Ballot(log, k, e, k)
  {
    var a :| VotedFor(c, log, e, k, a) && |a| >= |c.peers| / 2 + 1;
    var v :| v in a;
    assert Ballot(log, v, e, k);
  }

  /** No step of any node, restarts included, lowers any node's epoch. */
  lemma {:induction false} EpochsNeverFall(c: Cluster, schedule: seq<Action>, k: nat, id: NodeId)
    requires k <= |schedule| && id in Execute(c, schedule[..k]).nodes
    ensures id in Execute(c, schedule).nodes
    ensures Execute(c, schedule[..k]).nodes[id].epoch <= Execute(c, schedule).nodes[id].epoch
    decreases |schedule|
  {
    hide Apply, NodeStep, Inv;
    if k == |schedule| {
      assert schedule[..k] == schedule;
    } else {
      var front := schedule[..|schedule| - 1];
      assert front[..k] == schedule[..k];
      EpochsNeverFall(c, front, k, id);
      EveryRunKeepsInv(c, front);
      var w, a := Execute(c, front), schedule[|schedule| - 1];
      if Enabled(w, a) {
        EpochsAfter(c, w, a, id);
      }
    }
  }

  lemma {:induction false} EpochsAfter(c: Cluster, w: World, a: Action, id: NodeId)
    requires Inv(c, w) && Enabled(w, a) && id in w.nodes
    ensures id in Apply(w, a).nodes && Apply(w, a).nodes[id].epoch >= w.nodes[id].epoch
  {
    hide NodeStep;
    NodeStepKeeps(c, w, a);
  }

  /**
   Why a message and its tick must be one step: a candidate whose full tally has not been
   counted keeps it when it votes for another candidate, and its next tick announces the
   epoch that its own vote has just gone to.
   */
  lemma {:induction false} UncountedTallyStealsTheEpoch(n: Node, e: Epoch, k: NodeId, off: nat, now: nat, jitter: nat)
    requires n.role == Candidate && n.offerAt.Some? && |n.votes| >= n.Quorum()
    requires k != n.id && Accepts(n, e, k, off)
    ensures var (m, out) := OnOffer(n, e, k, off);
            && out == [Outbound(Some(k), Accept(e, n.id))]
            && Outbound(None, Announce(e, n.id)) in Tick(m, now, jitter).1
  {
    var (m, out) := OnOffer(n, e, k, off);
    assert Tick(m, now, jitter).1[|Tick(m, now, jitter).1| - 1] == Outbound(None, Announce(e, n.id));
  }

  // --- Who stands and who votes ----------------------------------------------------------------------

  /** The candidate order: the higher offset first, then the lower id. */
  predicate Ahead(offset: nat, id: NodeId, otherOffset: nat, otherId: NodeId) {
    offset > otherOffset || (offset == otherOffset && id < otherId)
  }

  /** In every run, a node's vote goes to an offer of a newer epoch exactly when the node is not itself ahead of the candidate. */
  lemma {:induction false} VotesFollowTheOrder(c: Cluster, schedule: seq<Action>, id: NodeId, e: Epoch, k: NodeId, off: nat)
    requires id in Execute(c, schedule).nodes
    ensures var n := Execute(c, schedule).nodes[id];
            OnOffer(n, e, k, off).1 != [] <==> e > n.epoch && !Ahead(n.offset, n.id, off, k)
  {
    hide Execute;
    EveryRunKeepsInv(c, schedule);
  }

  /** Of two nodes that offer their own offsets, at most one can get the other's vote. */
  lemma {:induction false} NoMutualVotes(n: Node, m: Node, e: Epoch, f: Epoch)
    requires n.id != m.id && OnOffer(n, e, m.id, m.offset).1 != []
    ensures OnOffer(m, f, n.id, n.offset).1 == []
  {
  }

  lemma {:induction false} HeartbeatsAreHeartbeats(n: Node, k: nat, now: nat)
    requires k <= |n.peers|
    ensures forall i :: 0 <= i < |Heartbeats(n, k, now).1| ==> Heartbeats(n, k, now).1[i].msg.Hb?
  {
    if k > 0 {
      HeartbeatsAreHeartbeats(n, k - 1, now);
    }
  }

  /** A tick offers the node's candidacy exactly when the node may stand. */
  lemma {:induction false} TickOffersWhenStanding(n: Node, now: nat, jitter: nat)
    ensures (exists o :: o in Tick(n, now, jitter).1 && o.msg.Offer?)
       <==> MayStandForElection(n.(firstTick := if n.firstTick.None? then Some(now) else n.firstTick), now)
  {
    var started := n.(firstTick := if n.firstTick.None? then Some(now) else n.firstTick);
    var (sent, beats) := Heartbeats(started, |n.peers|, now);
    HeartbeatsAreHeartbeats(started, |n.peers|, now);
    var ready := started.(hbSent := sent);
    StandingIgnoresHeartbeats(started, sent, now);
    var (standing, offers) := StartElection(ready, now);
    var announces := FinishCandidacy(standing, now, jitter).1;
    var out := Tick(n, now, jitter).1;
    assert out == beats + offers + announces;
    if MayStandForElection(ready, now) {
      assert out[|beats|] == offers[0];
    }
  }

  lemma {:induction false} StandingIgnoresHeartbeats(n: Node, sent: map<NodeId, nat>, now: nat)
    ensures MayStandForElection(n.(hbSent := sent), now) == MayStandForElection(n, now)
  {
    var m := n.(hbSent := sent);
    assert forall i :: 0 <= i < |n.peers| ==> Outranks(m, m.peers[i], now) == Outranks(n, n.peers[i], now);
  }

  /** No node stands while it hears its primary, nor while a live peer is ahead of it. */
  lemma {:induction false} NoElectionWhilePrimaryIsHeard(n: Node, now: nat, jitter: nat)
    requires n.primary.Some? && n.primary.value in n.views
    requires Since(now, n.views[n.primary.value].lastSeen) < n.timeouts.downAfter
    ensures forall o :: o in Tick(n, now, jitter).1 ==> !o.msg.Offer?
  {
    TickOffersWhenStanding(n, now, jitter);
  }

  lemma {:induction false} NoElectionBehindALivePeer(n: Node, now: nat, jitter: nat, peer: NodeId)
    requires peer in n.peers && peer != n.id && n.primary != Some(peer) && peer in n.views
    requires Since(now, n.views[peer].lastSeen) < n.timeouts.downAfter
    requires Ahead(n.views[peer].lastOffset, peer, n.offset, n.id)
    ensures forall o :: o in Tick(n, now, jitter).1 ==> !o.msg.Offer?
  {
    TickOffersWhenStanding(n, now, jitter);
    var started := n.(firstTick := if n.firstTick.None? then Some(now) else n.firstTick);
    var i :| 0 <= i < |n.peers| && n.peers[i] == peer;
    assert Outranks(started, started.peers[i], now);
  }

  /**
   A candidacy that runs out falls back to replica and does not stand again before its backoff,
   with the jitter that was drawn for it, has passed.
   */
  lemma {:induction false} LapsedCandidacyBacksOff(n: Node, now: nat, jitter: nat, later: nat, jitter': nat)
    requires n.role == Candidate && n.offerAt.Some? && |n.votes| < n.Quorum()
    requires Since(now, n.offerAt.value) >= n.timeouts.election
    requires later < now + n.timeouts.backoff + if jitter < n.timeouts.jitter then jitter else n.timeouts.jitter
    ensures var m := Tick(n, now, jitter).0;
            m.role == Replica && m.epoch == n.epoch && forall o :: o in Tick(m, later, jitter').1 ==> !o.msg.Offer?
  {
    var m := Tick(n, now, jitter).0;
    TickOffersWhenStanding(m, later, jitter');
  }
}
