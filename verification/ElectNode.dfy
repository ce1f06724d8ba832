/** The elector as crates/kevy-elect keeps it: mutable, and each of its steps a step of the cluster. */
module ElectNode {
  import opened Bytes
  import opened Elector
  import opened ElectSafety

  /** At most one node announces itself primary of each epoch below the last. */
  ghost predicate OneWinnerPerEpoch(c: Cluster, w: World) {
    ValidCluster(c) ==> forall e: Epoch, k, l :: e < MAX_EPOCH && Wins(w.log, k, e) && Wins(w.log, l, e) ==> k == l
  }

  lemma {:induction false} StepIsSafe(c: Cluster, w: World, a: Action)
    requires Inv(c, w)
    ensures var w' := Next(w, a);
            && Inv(c, w') && OneWinnerPerEpoch(c, w')
            && forall id :: id in w.nodes ==> id in w'.nodes && w'.nodes[id].epoch >= w.nodes[id].epoch
  {
    hide Inv, Apply;
    var w' := Next(w, a);
    if Enabled(w, a) {
      StepKeepsInv(c, w, a);
      forall id | id in w.nodes
        ensures id in w'.nodes && w'.nodes[id].epoch >= w.nodes[id].epoch
      {
        EpochsAfter(c, w, a, id);
      }
    }
    if ValidCluster(c) {
      forall e: Epoch, k, l | e < MAX_EPOCH && Wins(w'.log, k, e) && Wins(w'.log, l, e)
        ensures k == l
      {
        OneWinner(c, w', e, k, l);
      }
    }
  }

  lemma {:induction false} EpochIsSaved(c: Cluster, w: World, id: NodeId)
    requires Inv(c, w) && id in w.nodes
    ensures w.nodes[id].epoch == if w.nodes[id].saved.epoch > 1 then w.nodes[id].saved.epoch else 1
  {
  }

  /** The elector, in a cluster of others whose state and messages it does not see. */
  class ElectorNode {
    const id: NodeId
    const peers: seq<NodeId>
    const timeouts: Timeouts
    var role: Role
    var epoch: Epoch
    var primary: Option<NodeId>
    var firstTick: Option<nat>
    var offset: nat
    var hbSent: map<NodeId, nat>
    var views: map<NodeId, PeerView>
    var votes: set<NodeId>
    var offerAt: Option<nat>
    var backoffUntil: Option<nat>
    var lastAccept: Option<Epoch>
    var saved: Saved
    ghost const cluster: Cluster
    ghost var world: World

    function View(): Node
      reads this
    {
      Node(id, peers, timeouts, role, epoch, primary, firstTick, offset, hbSent, views, votes, offerAt, backoffUntil,
           lastAccept, saved)
    }

    /** The cluster's invariant holds, and this is its node of that id. */
    ghost predicate Valid()
      reads this
    {
      Inv(cluster, world) && id in world.nodes && world.nodes[id] == View()
    }

    /** Elector::new on a first start: one node of a cluster in which nothing has happened. */
    constructor (id: NodeId, peers: seq<NodeId>, timeouts: Timeouts, role: Role, ghost c: Cluster)
      requires peers == c.peers && timeouts == c.timeouts && id in peers
      requires role == if c.boot == Some(id) then Primary else Replica
      ensures Valid() && cluster == c && world == Initial(c) && this.id == id
    {
      this.id, this.peers, this.timeouts, this.role := id, peers, timeouts, role;
      saved := Saved(0, None);
      epoch, primary, firstTick, offset := 1, None, None, 0;
      hbSent, views, votes, offerAt, backoffUntil, lastAccept := map[], map[], {}, None, None, None;
      cluster, world := c, Initial(c);
      new;
      InitialInv(c);
    }

    /** One pass of the orchestrator with a message: handle it, then tick. */
    method Pump(from: NodeId, msg: Message, now: nat, jitter: nat, ghost to: Option<NodeId>) returns (out: seq<Outbound>)
      requires Valid() && Deliverable(world, Sent(from, Outbound(to, msg)), id)
      modifies this
      ensures Valid() && world == Next(old(world), Action.Pump(id, Sent(from, Outbound(to, msg)), now, jitter))
      ensures world.log == old(world).log + Logged(id, out)
      ensures epoch >= old(epoch) && OneWinnerPerEpoch(cluster, world)
    {
      hide Inv, OnMessage, Tick;
      ghost var w, a := world, Action.Pump(id, Sent(from, Outbound(to, msg)), now, jitter);
      StepIsSafe(cluster, w, a);
      var replies := HandleMessage(from, msg, now);
      var rest := RunTick(now, jitter);
      out := replies + rest;
      world := Next(w, a);
    }

    /** One pass without a message: only the tick. */
    method Timeout(now: nat, jitter: nat) returns (out: seq<Outbound>)
      requires Valid()
      modifies this
      ensures Valid() && world == Next(old(world), Action.Timeout(id, now, jitter))
      ensures world.log == old(world).log + Logged(id, out)
      ensures epoch >= old(epoch) && OneWinnerPerEpoch(cluster, world)
    {
      hide Inv, Tick;
      ghost var w, a := world, Action.Timeout(id, now, jitter);
      StepIsSafe(cluster, w, a);
      out := RunTick(now, jitter);
      world := Next(w, a);
    }

    /** with_persist on a restart: everything but the durable record is lost. */
    method Restart()
      requires Valid()
      modifies this
      ensures Valid() && world == Next(old(world), Action.Restart(id))
      ensures epoch == old(epoch) && saved == old(saved) && role == Replica
      ensures OneWinnerPerEpoch(cluster, world)
    {
      ghost var w, a := world, Action.Restart(id);
      EpochIsSaved(cluster, w, id);
      hide Inv;
      StepIsSafe(cluster, w, a);
      Reload();
      world := Next(w, a);
    }

    method Reload()
      modifies this
      ensures View() == Start(id, peers, timeouts, Replica, old(saved)) && world == old(world)
    {
      var e: Epoch, accepted: Option<Epoch> := 1, None;
      if saved.epoch > 0 {
        e := if saved.epoch > 1 then saved.epoch else 1;
        if saved.votedFor.Some? {
          accepted := Some(saved.epoch);
        }
      }
      Forget();
      role, epoch, offset, lastAccept := Replica, e, 0, accepted;
    }

    /** What a node knows only while it runs. */
    method Forget()
      modifies this`primary, this`firstTick, this`hbSent, this`views, this`votes, this`offerAt, this`backoffUntil
      ensures primary == None && firstTick == None && hbSent == map[] && views == map[] && votes == {}
      ensures offerAt == None && backoffUntil == None
    {
      primary, firstTick, hbSent, views, votes, offerAt, backoffUntil := None, None, map[], map[], {}, None, None;
    }

    /** set_repl_offset */
    method SetOffset(off: nat)
      requires Valid()
      modifies this
      ensures Valid() && world == Next(old(world), Replicate(id, off))
      ensures View() == old(View()).(offset := off) && world.log == old(world).log
    {
      hide Inv;
      ghost var w, a := world, Replicate(id, off);
      StepIsSafe(cluster, w, a);
      assert Logged(id, []) == {};
      offset := off;
      world := Next(w, a);
    }

    /** A step of any other node leaves this one as it is, and the cluster's invariant in place. */
    ghost method Elsewhere(a: Action)
      requires Valid() && a.node != id
      modifies this`world
      ensures Valid() && world == Next(old(world), a) && OneWinnerPerEpoch(cluster, world)
    {
      hide Inv;
      StepIsSafe(cluster, world, a);
      world := Next(world, a);
    }

    method HandleHb(from: NodeId, e: Epoch, r: Role, off: nat, now: nat)
      modifies this
      ensures View() == OnHb(old(View()), from, e, r, off, now)
    {
      views := views[from := PeerView(now, e, r, off)];
      if r == Primary && e >= epoch && (e > epoch || (primary == None && role == Replica)) {
        if e > epoch {
          saved := Saved(e, None);
        }
        epoch := e;
        primary := Some(from);
        if role == Primary && from != id {
          role := Replica;
        } else if role == Candidate {
          role := Replica;
          offerAt := None;
          votes := {};
        }
      }
    }

    method HandleOffer(newEpoch: Epoch, candidate: NodeId, off: nat) returns (out: seq<Outbound>)
      modifies this
      ensures (View(), out) == OnOffer(old(View()), newEpoch, candidate, off)
    {
      if newEpoch <= epoch {
        return [];
      }
      if offset > off {
        return [];
      }
      if offset == off && id < candidate {
        return [];
      }
      if lastAccept == Some(newEpoch) {
        return [];
      }
      saved := Saved(newEpoch, Some(candidate));
      lastAccept := Some(newEpoch);
      epoch := newEpoch;
      return [Outbound(Some(candidate), Accept(newEpoch, id))];
    }

    method HandleAccept(e: Epoch, accepter: NodeId)
      modifies this
      ensures View() == OnAccept(old(View()), e, accepter)
    {
      if role != Candidate || epoch != e {
        return;
      }
      votes := votes + {accepter};
    }

    method HandleAnnounce(e: Epoch, newPrimary: NodeId)
      modifies this
      ensures View() == OnAnnounce(old(View()), e, newPrimary)
    {
      if e <= epoch && primary == Some(newPrimary) {
        return;
      }
      if e < epoch {
        return;
      }
      saved := Saved(e, Some(newPrimary));
      epoch, primary, lastAccept, votes, offerAt := e, Some(newPrimary), Some(e), {}, None;
      role := if newPrimary == id then Primary else Replica;
    }

    /** on_message */
    method HandleMessage(from: NodeId, msg: Message, now: nat) returns (out: seq<Outbound>)
      modifies this
      ensures (View(), out) == OnMessage(old(View()), from, msg, now)
    {
      out := [];
      match msg {
        case Hb(e, _, r, off) => HandleHb(from, e, r, off, now);
        case Offer(e, candidate, off) => out := HandleOffer(e, candidate, off);
        case Accept(e, accepter) => HandleAccept(e, accepter);
        case Announce(e, newPrimary) => HandleAnnounce(e, newPrimary);
      }
    }

    method EmitHeartbeats(now: nat) returns (out: seq<Outbound>)
      modifies this`hbSent
      ensures (hbSent, out) == Heartbeats(old(View()), |peers|, now)
    {
      out := [];
      for k := 0 to |peers|
        invariant (hbSent, out) == Heartbeats(old(View()), k, now)
      {
        var peer := peers[k];
        if peer != id && (peer !in hbSent || Since(now, hbSent[peer]) >= timeouts.hbInterval) {
          hbSent := hbSent[peer := now];
          out := out + [Outbound(Some(peer), Hb(epoch, id, role, offset))];
        }
      }
    }

    /** am_best_candidate */
    method IsBestCandidate(now: nat) returns (best: bool)
      ensures best == BestCandidate(View(), now)
    {
      for i := 0 to |peers|
        invariant forall j :: 0 <= j < i ==> !Outranks(View(), peers[j], now)
      {
        var other := peers[i];
        if other != id && primary != Some(other) && other in views {
          var v := views[other];
          if Since(now, v.lastSeen) < timeouts.downAfter {
            if v.lastOffset > offset || (v.lastOffset == offset && other < id) {
              assert Outranks(View(), peers[i], now);
              return false;
            }
          }
        }
      }
      return true;
    }

    method MaybeStartElection(now: nat) returns (out: seq<Outbound>)
      modifies this
      ensures (View(), out) == StartElection(old(View()), now)
    {
      if role != Replica || (backoffUntil.Some? && now < backoffUntil.value) {
        return [];
      }
      if primary.Some? {
        if primary.value in views && Since(now, views[primary.value].lastSeen) < timeouts.downAfter {
          return [];
        }
      } else if firstTick.None? || Since(now, firstTick.value) < timeouts.downAfter {
        return [];
      }
      var best := IsBestCandidate(now);
      if !best {
        return [];
      }
      var e := if epoch == MAX_EPOCH then MAX_EPOCH else epoch + 1;
      saved := Saved(e, Some(id));
      epoch, role, votes, offerAt := e, Candidate, {id}, Some(now);
      return [Outbound(None, Offer(e, id, offset))];
    }

    method MaybeFinishCandidacy(now: nat, jitter: nat) returns (out: seq<Outbound>)
      modifies this
      ensures (View(), out) == FinishCandidacy(old(View()), now, jitter)
    {
      if role != Candidate || offerAt.None? {
        return [];
      }
      if |votes| >= |peers| / 2 + 1 {
        role, primary, offerAt, votes := Primary, Some(id), None, {};
        return [Outbound(None, Announce(epoch, id))];
      }
      if Since(now, offerAt.value) >= timeouts.election {
        role, offerAt, votes := Replica, None, {};
        backoffUntil := Some(now + timeouts.backoff + if jitter < timeouts.jitter then jitter else timeouts.jitter);
      }
      return [];
    }

    /** tick */
    method RunTick(now: nat, jitter: nat) returns (out: seq<Outbound>)
      modifies this
      ensures (View(), out) == Tick(old(View()), now, jitter)
    {
      if firstTick.None? {
        firstTick := Some(now);
      }
      var beats := EmitHeartbeats(now);
      var offers := MaybeStartElection(now);
      var announces := MaybeFinishCandidacy(now, jitter);
      out := beats + offers + announces;
    }
  }
}
