/** The embedded subscriber's handles: bindings/go/subscriber_emb.go. */
module EmbSub {
  import opened Bytes
  import opened Resp

  type SubId = nat
  datatype Handle = Handle(sub: SubId, name: seq<Byte>, pattern: bool)

  // --- Round robin ---------------------------------------------------------------------

  /** A queued frame, or None for one whose bytes do not decode. */
  type Frame = Option<Reply>

  /** The queued frames of each handle, and the cursor. */
  datatype Ring = Ring(queues: seq<seq<Frame>>, rr: nat)

  /** How many handles the cursor visits before handle j. */
  function Distance(n: nat, rr: nat, j: nat): (d: nat)
    requires j < n
    ensures d < n
  {
    if rr % n <= j then j - rr % n else j + n - rr % n
  }

  function Visited(n: nat, rr: nat, i: nat): (j: nat)
    requires 0 < n
    ensures j < n
  {
    (rr + i) % n
  }

  lemma {:induction false} VisitedAt(n: nat, rr: nat, i: nat)
    requires i < n
    ensures Visited(n, rr, i) == if rr % n + i < n then rr % n + i else rr % n + i - n
    ensures Distance(n, rr, Visited(n, rr, i)) == i
  {
    var q, r := rr / n, rr % n;
    assert rr == q * n + r;
    if r + i < n {
      assert rr + i == q * n + (r + i);
      ModOf(rr + i, n, q, r + i);
    } else {
      assert rr + i == (q + 1) * n + (r + i - n);
      ModOf(rr + i, n, q + 1, r + i - n);
    }
  }

  lemma {:induction false} ModOf(x: int, n: int, q: int, r: int)
    requires 0 <= r < n && x == q * n + r
    ensures x % n == r
  {
    var d := x / n - q;
    assert x == (x / n) * n + x % n;
    Distribute(x / n, q, n);
    assert x % n - r == -(d * n);
    MulBound(d, n);
  }

  lemma {:induction false} Distribute(a: int, b: int, n: int)
    ensures (a - b) * n == a * n - b * n
  {
  }

  lemma {:induction false} MulBound(d: int, n: int)
    requires n > 0
    ensures d > 0 ==> d * n >= n
    ensures d < 0 ==> d * n <= -n
  {
  }

  /** The first handle from the cursor, at least i steps on, that has a frame. */
  function Ready(ring: Ring, i: nat): (k: Option<nat>)
    requires i <= |ring.queues|
    ensures k.Some? ==> i <= k.value < |ring.queues| && ring.queues[Visited(|ring.queues|, ring.rr, k.value)] != []
    decreases |ring.queues| - i
  {
    if i == |ring.queues| then None
    else if ring.queues[Visited(|ring.queues|, ring.rr, i)] != [] then Some(i)
    else Ready(ring, i + 1)
  }

  datatype Polled = Polled(handle: nat, frame: Frame)

  /** poll: the frame or error it hands out, if any, and the ring after it; an error leaves the cursor where it was. */
  function PollRing(ring: Ring): (r: (Option<Polled>, Ring))
    ensures |r.1.queues| == |ring.queues|
  {
    var n := |ring.queues|;
    match Ready(ring, 0)
    case None => (None, ring)
    case Some(i) =>
      var j := Visited(n, ring.rr, i);
      var f := ring.queues[j][0];
      (Some(Polled(j, f)), Ring(ring.queues[j := ring.queues[j][1..]], if f.Some? then (ring.rr + i + 1) % n else ring.rr))
  }

  lemma {:induction false} ReadyBefore(ring: Ring, i: nat, d: nat)
    requires i <= d < |ring.queues| && ring.queues[Visited(|ring.queues|, ring.rr, d)] != []
    ensures Ready(ring, i).Some? && Ready(ring, i).value <= d
    decreases d - i
  {
    if i < d {
      ReadyBefore(ring, i + 1, d);
    }
  }

  lemma {:induction false} DistanceVisits(n: nat, rr: nat, j: nat)
    requires j < n
    ensures Visited(n, rr, Distance(n, rr, j)) == j
  {
    VisitedAt(n, rr, Distance(n, rr, j));
  }

  /** With a frame waiting at j, a poll serves j, or reports an error of another handle, or brings the cursor strictly closer. */
  lemma {:induction false} PollApproaches(ring: Ring, j: nat)
    requires j < |ring.queues| && ring.queues[j] != []
    ensures var (p, next) := PollRing(ring);
            && p.Some?
            && (p.value.handle == j ==> p.value.frame == ring.queues[j][0])
            && (p.value.handle != j ==> next.queues[j] == ring.queues[j])
            && (p.value.handle != j ==>
                  if p.value.frame.Some? then Distance(|ring.queues|, next.rr, j) < Distance(|ring.queues|, ring.rr, j)
                  else next.rr == ring.rr)
  {
    var n := |ring.queues|;
    var d := Distance(n, ring.rr, j);
    DistanceVisits(n, ring.rr, j);
    ReadyBefore(ring, 0, d);
    var i := Ready(ring, 0).value;
    VisitedAt(n, ring.rr, i);
    if Visited(n, ring.rr, i) != j && PollRing(ring).0.value.frame.Some? {
      assert i < d;
      VisitedAt(n, ring.rr, i + 1);
      assert PollRing(ring).1.rr == Visited(n, ring.rr, i + 1);
      ModOf(Visited(n, ring.rr, i + 1), n, 0, Visited(n, ring.rr, i + 1));
    }
  }

  /** What happens to a fixed list of handles: a frame arrives for one of them, or the consumer polls. */
  datatype Event = Arrive(handle: nat, frame: Frame) | Poll

  /** The frames that a run of events hands out, and the ring it leaves. */
  function Run(ring: Ring, events: seq<Event>): (r: (seq<Polled>, Ring))
    ensures |r.1.queues| == |ring.queues|
    decreases |events|
  {
    if events == [] then ([], ring)
    else
      match events[0]
      case Arrive(j, f) =>
        if j < |ring.queues| then Run(ring.(queues := ring.queues[j := ring.queues[j] + [f]]), events[1..])
        else Run(ring, events[1..])
      case Poll =>
        var (p, next) := PollRing(ring);
        var (out, end) := Run(next, events[1..]);
        (if p.Some? then [p.value] + out else out, end)
  }

  function Polls(events: seq<Event>): nat {
    if events == [] then 0 else (if events[0].Poll? then 1 else 0) + Polls(events[1..])
  }

  /** How many polls handed out a frame rather than an error. */
  function Successes(out: seq<Polled>): nat {
    if out == [] then 0 else (if out[0].frame.Some? then 1 else 0) + Successes(out[1..])
  }

  /**
   No starvation: whatever else arrives and however often other handles fail, a waiting frame is handed
   out within as many successful polls as there are handles.
   */
  lemma {:induction false} NoStarvation(ring: Ring, events: seq<Event>, j: nat)
    requires j < |ring.queues| && ring.queues[j] != []
    requires Successes(Run(ring, events).0) > Distance(|ring.queues|, ring.rr, j)
    ensures Polled(j, ring.queues[j][0]) in Run(ring, events).0
    decreases |events|
  {
    hide PollRing, Distance;
    match events[0]
    case Arrive(k, f) =>
      var next := if k < |ring.queues| then ring.(queues := ring.queues[k := ring.queues[k] + [f]]) else ring;
      NoStarvation(next, events[1..], j);
    case Poll =>
      PollApproaches(ring, j);
      var (p, next) := PollRing(ring);
      var out := Run(next, events[1..]).0;
      assert ([p.value] + out)[0] == p.value && ([p.value] + out)[1..] == out;
      if p.value.handle != j {
        NoStarvation(next, events[1..], j);
      }
  }

  predicate AllDecode(frames: seq<Frame>) {
    forall i :: 0 <= i < |frames| ==> frames[i].Some?
  }

  /** Every frame that is queued or arrives decodes. */
  predicate NoErrors(ring: Ring, events: seq<Event>) {
    && (forall j :: 0 <= j < |ring.queues| ==> AllDecode(ring.queues[j]))
    && (forall i :: 0 <= i < |events| && events[i].Arrive? ==> events[i].frame.Some?)
  }

  /** While a frame waits and all frames decode, every poll is a success, until that frame is handed out. */
  lemma {:induction false} EveryPollSucceeds(ring: Ring, events: seq<Event>, j: nat)
    requires j < |ring.queues| && ring.queues[j] != [] && NoErrors(ring, events)
    ensures var out := Run(ring, events).0;
            Polled(j, ring.queues[j][0]) in out || Successes(out) == Polls(events)
    decreases |events|
  {
    hide Distance;
    if events != [] {
      match events[0]
      case Arrive(k, f) =>
        var next := if k < |ring.queues| then ring.(queues := ring.queues[k := ring.queues[k] + [f]]) else ring;
        EveryPollSucceeds(next, events[1..], j);
      case Poll =>
        PollApproaches(ring, j);
        var (p, next) := PollRing(ring);
        var out := Run(next, events[1..]).0;
        assert ([p.value] + out)[0] == p.value && ([p.value] + out)[1..] == out;
        if p.value.handle != j {
          EveryPollSucceeds(next, events[1..], j);
        }
    }
  }

  /** So a waiting frame is handed out within as many polls as there are handles. */
  lemma {:induction false} ServedWithinARound(ring: Ring, events: seq<Event>, j: nat)
    requires j < |ring.queues| && ring.queues[j] != [] && NoErrors(ring, events) && Polls(events) >= |ring.queues|
    ensures Polled(j, ring.queues[j][0]) in Run(ring, events).0
  {
    hide Run, NoErrors;
    EveryPollSucceeds(ring, events, j);
    if Successes(Run(ring, events).0) == Polls(events) {
      NoStarvation(ring, events, j);
    }
  }

  /** The frames handed out for one handle, and those that arrived for it, in order. */
  function Served(out: seq<Polled>, j: nat): seq<Frame> {
    if out == [] then [] else (if out[0].handle == j then [out[0].frame] else []) + Served(out[1..], j)
  }

  function Arrived(events: seq<Event>, j: nat): seq<Frame> {
    if events == [] then []
    else (if events[0].Arrive? && events[0].handle == j then [events[0].frame] else []) + Arrived(events[1..], j)
  }

  /** Each handle is a FIFO: frames handed out, then frames left, are frames queued, then frames arrived. */
  lemma {:induction false} EachHandleIsFifo(ring: Ring, events: seq<Event>, j: nat)
    requires j < |ring.queues|
    ensures var (out, end) := Run(ring, events);
            Served(out, j) + end.queues[j] == ring.queues[j] + Arrived(events, j)
    decreases |events|
  {
    hide PollRing;
    if events == [] {
    } else if events[0].Arrive? {
      ArriveStep(ring, events, j);
    } else {
      PollStep(ring, events, j);
    }
  }

  lemma {:induction false} ArriveStep(ring: Ring, events: seq<Event>, j: nat)
    requires j < |ring.queues| && events != [] && events[0].Arrive?
    ensures var (out, end) := Run(ring, events);
            Served(out, j) + end.queues[j] == ring.queues[j] + Arrived(events, j)
    decreases |events|, 0
  {
    hide PollRing, Served;
    var k, f, rest := events[0].handle, events[0].frame, Arrived(events[1..], j);
    var next := if k < |ring.queues| then ring.(queues := ring.queues[k := ring.queues[k] + [f]]) else ring;
    EachHandleIsFifo(next, events[1..], j);
    assert Run(ring, events) == Run(next, events[1..]);
    if k == j {
      assert Arrived(events, j) == [f] + rest && next.queues[j] == ring.queues[j] + [f];
      assert ring.queues[j] + [f] + rest == ring.queues[j] + ([f] + rest);
    } else {
      assert Arrived(events, j) == [] + rest == rest && next.queues[j] == ring.queues[j];
    }
  }

  /** A poll takes the front frame of the handle it names, and leaves the other queues alone. */
  lemma {:induction false} PollTakesTheFront(ring: Ring, j: nat)
    requires j < |ring.queues|
    ensures var (p, next) := PollRing(ring);
            ring.queues[j] == (if p.Some? && p.value.handle == j then [p.value.frame] else []) + next.queues[j]
  {
    hide Visited;
    var (p, next) := PollRing(ring);
    if p.Some? && p.value.handle == j {
      assert ring.queues[j] == [ring.queues[j][0]] + ring.queues[j][1..];
    }
  }

  lemma {:induction false} PollStep(ring: Ring, events: seq<Event>, j: nat)
    requires j < |ring.queues| && events != [] && events[0].Poll?
    ensures var (out, end) := Run(ring, events);
            Served(out, j) + end.queues[j] == ring.queues[j] + Arrived(events, j)
    decreases |events|, 0
  {
    hide PollRing;
    var (p, next) := PollRing(ring);
    EachHandleIsFifo(next, events[1..], j);
    PollTakesTheFront(ring, j);
    var (out, end) := Run(next, events[1..]);
    var taken := if p.Some? && p.value.handle == j then [p.value.frame] else [];
    var all := Run(ring, events).0;
    assert Run(ring, events).1 == end;
    assert Served(all, j) == taken + Served(out, j) by {
      if p.Some? {
        assert all == [p.value] + out && all[1..] == out;
      } else {
        assert all == out && [] + Served(out, j) == Served(out, j);
      }
    }
    assert Arrived(events, j) == [] + Arrived(events[1..], j) == Arrived(events[1..], j);
    SameFront(taken, Served(out, j), end.queues[j], next.queues[j], Arrived(events, j));
  }

  lemma {:induction false} SameFront(taken: seq<Frame>, served: seq<Frame>, left: seq<Frame>, queued: seq<Frame>, more: seq<Frame>)
    requires served + left == queued + more
    ensures taken + served + left == taken + queued + more
  {
    assert taken + served + left == taken + (served + left);
    assert taken + queued + more == taken + (queued + more);
  }

  // --- The handle list as the source keeps it -----------------------------------------------------

  /** nameIn */
  method NameIn(names: seq<seq<Byte>>, n: seq<Byte>) returns (b: bool)
    ensures b == (n in names)
  {
    for i := 0 to |names|
      invariant n !in names[..i]
    {
      if names[i] == n {
        return true;
      }
    }
    assert names[..|names|] == names;
    return false;
  }

  predicate Drops(h: Handle, names: seq<seq<Byte>>, pattern: bool) {
    h.pattern == pattern && (names == [] || h.name in names)
  }

  /** The handles that a remove keeps, and the subscriptions it closes, in list order. */
  function Kept(hs: seq<Handle>, names: seq<seq<Byte>>, pattern: bool): (k: seq<Handle>)
    ensures |k| <= |hs|
  {
    if hs == [] then []
    else
      var h := hs[|hs| - 1];
      Kept(hs[..|hs| - 1], names, pattern) + if Drops(h, names, pattern) then [] else [h]
  }

  function Dropped(hs: seq<Handle>, names: seq<seq<Byte>>, pattern: bool): seq<SubId> {
    if hs == [] then []
    else
      var h := hs[|hs| - 1];
      Dropped(hs[..|hs| - 1], names, pattern) + if Drops(h, names, pattern) then [h.sub] else []
  }

  /** embSub: the handles in a backing array, the cursor, and the engine's side of each subscription. */
  class Subscriptions {
    var backing: array<Handle>
    var len: nat
    var rr: nat
    var queues: map<SubId, seq<Frame>>
    var closed: seq<SubId>

    ghost predicate Valid()
      reads this, backing
    {
      && len <= backing.Length
      && (forall i :: 0 <= i < len ==> backing[i].sub in queues && backing[i].sub !in closed)
      && (forall i, j :: 0 <= i < j < len ==> backing[i].sub != backing[j].sub)
    }

    ghost function Contents(): seq<Handle>
      requires len <= backing.Length
      reads this, backing
    {
      backing[..len]
    }

    /** The ring that poll goes round. */
    ghost function View(): Ring
      requires Valid()
      reads this, backing
    {
      Ring(seq(len, i requires 0 <= i < len && Valid() reads this, backing => queues[backing[i].sub]), rr)
    }

    constructor ()
      ensures Valid() && Contents() == [] && rr == 0 && fresh(backing)
    {
      backing := new Handle[0];
      len, rr, queues, closed := 0, 0, map[], [];
    }

    /**
     One name of add: the handle goes to the end of the list, into the backing array where that has room
     and into a larger copy of it where it has none; a refused subscription changes nothing.
     */
    method AddOne(name: seq<Byte>, pattern: bool, sub: SubId, granted: bool) returns (ok: bool)
      requires Valid() && sub !in queues && sub !in closed
      modifies this, backing
      ensures Valid() && ok == granted && rr == old(rr) && closed == old(closed)
      ensures Contents() == if granted then old(Contents()) + [Handle(sub, name, pattern)] else old(Contents())
      ensures if old(len < backing.Length) || !granted then backing == old(backing) else fresh(backing)
    {
      if !granted {
        return false;
      }
      var h := Handle(sub, name, pattern);
      ghost var was := backing[..len];
      assert forall i :: 0 <= i < len ==> was[i] == backing[i];
      Append(h);
      assert forall i :: 0 <= i < len ==> backing[i] == backing[..len][i] == (was + [h])[i];
      queues := queues[sub := []];
      return true;
    }

    /** append */
    method Append(h: Handle)
      requires len <= backing.Length
      modifies this`backing, this`len, backing
      ensures len == old(len) + 1 <= backing.Length && Contents() == old(Contents()) + [h]
      ensures if old(len < backing.Length) then backing == old(backing) else fresh(backing)
    {
      ghost var was := backing[..len];
      if len == backing.Length {
        var bigger := new Handle[2 * len + 1](i requires 0 <= i <= 2 * len && len <= backing.Length reads this, backing =>
          if i < len then backing[i] else h);
        assert bigger[..len] == was;
        backing := bigger;
      }
      backing[len] := h;
      assert backing[..len] == was;
      len := len + 1;
    }

    /** remove: filters the list in place, reading and writing one backing array. */
    method Remove(names: seq<seq<Byte>>, pattern: bool)
      requires Valid()
      modifies this`len, this`closed, backing
      ensures Valid()
      ensures Contents() == Kept(old(Contents()), names, pattern)
      ensures closed == old(closed) + Dropped(old(Contents()), names, pattern)
    {
      hide Kept, Dropped;
      ghost var was, gone := backing[..len], closed;
      assert Distinct(was);
      var keep := Filter(names, pattern);
      len := keep;
      StillOpen(was, names, pattern, queues, gone);
      assert forall i :: 0 <= i < len ==> backing[i] == backing[..len][i];
    }

    /** The loop of remove: keep is never ahead of the element being read. */
    method Filter(names: seq<seq<Byte>>, pattern: bool) returns (keep: nat)
      requires len <= backing.Length
      modifies this`closed, backing
      ensures keep <= len && backing[..keep] == Kept(old(Contents()), names, pattern)
      ensures closed == old(closed) + Dropped(old(Contents()), names, pattern)
    {
      hide Kept, Dropped;
      ghost var was := backing[..len];
      keep := 0;
      FilterStart(was, names, pattern);
      for i := 0 to len
        invariant keep <= i
        invariant backing[..keep] == Kept(was[..i], names, pattern)
        invariant forall j :: i <= j < len ==> backing[j] == was[j]
        invariant closed == old(closed) + Dropped(was[..i], names, pattern)
      {
        var h := backing[i];
        FilterStep(was, i, names, pattern);
        var named := NameIn(names, h.name);
        var drop := h.pattern == pattern && (|names| == 0 || named);
        if drop {
          closed := closed + [h.sub];
        } else {
          backing[keep] := h;
          keep := keep + 1;
        }
      }
      assert was[..len] == was;
    }

    /** close: every handle is closed, in order, and none is left. */
    method Close()
      requires Valid()
      modifies this`len, this`closed
      ensures Valid() && Contents() == []
      ensures |closed| == |old(closed)| + old(len) && old(closed) <= closed
      ensures forall i :: 0 <= i < old(len) ==> closed[|old(closed)| + i] == old(backing[i].sub)
    {
      for i := 0 to len
        invariant |closed| == |old(closed)| + i && old(closed) <= closed
        invariant forall j :: 0 <= j < i ==> closed[|old(closed)| + j] == backing[j].sub
      {
        closed := closed + [backing[i].sub];
      }
      len := 0;
    }

    /** poll: visits the handles from the cursor and hands out the first frame it finds, or that frame's error. */
    method PollOnce() returns (p: Option<Frame>)
      requires Valid()
      modifies this`rr, this`queues
      ensures Valid()
      ensures View() == PollRing(old(View())).1
      ensures p == match PollRing(old(View())).0 case Some(x) => Some(x.frame) case None => None
    {
      ghost var ring := View();
      var n := len;
      for i := 0 to n
        invariant Valid() && View() == ring && Ready(ring, 0) == Ready(ring, i)
      {
        var h := backing[Visited(n, rr, i)];
        if queues[h.sub] != [] {
          var frame := queues[h.sub][0];
          queues := queues[h.sub := queues[h.sub][1..]];
          if frame.Some? {
            rr := (rr + i + 1) % n;
          }
          assert View().queues == ring.queues[Visited(n, ring.rr, i) := ring.queues[Visited(n, ring.rr, i)][1..]];
          return Some(frame);
        }
      }
      return None;
    }
  }

  /** The kept handles are distinct, known, and not among the closed. */
  lemma {:induction false} StillOpen(was: seq<Handle>, names: seq<seq<Byte>>, pattern: bool, queues: map<SubId, seq<Frame>>, gone: seq<SubId>)
    requires Distinct(was) && forall i :: 0 <= i < |was| ==> was[i].sub in queues && was[i].sub !in gone
    ensures var kept := Kept(was, names, pattern);
            && Distinct(kept)
            && forall i :: 0 <= i < |kept| ==> kept[i].sub in queues && kept[i].sub !in gone + Dropped(was, names, pattern)
  {
    hide Kept, Dropped;
    KeptIsValid(was, names, pattern);
    var kept := Kept(was, names, pattern);
    forall i | 0 <= i < |kept|
      ensures kept[i].sub in queues && kept[i].sub !in gone
    {
      var x :| 0 <= x < |was| && was[x] == kept[i];
    }
  }

  lemma {:induction false} FilterStart(hs: seq<Handle>, names: seq<seq<Byte>>, pattern: bool)
    ensures Kept(hs[..0], names, pattern) == [] && Dropped(hs[..0], names, pattern) == []
  {
  }

  lemma {:induction false} FilterStep(hs: seq<Handle>, i: nat, names: seq<seq<Byte>>, pattern: bool)
    requires i < |hs|
    ensures Kept(hs[..i + 1], names, pattern) == Kept(hs[..i], names, pattern) + if Drops(hs[i], names, pattern) then [] else [hs[i]]
    ensures Dropped(hs[..i + 1], names, pattern)
         == Dropped(hs[..i], names, pattern) + if Drops(hs[i], names, pattern) then [hs[i].sub] else []
  {
    assert hs[..i + 1][..i] == hs[..i];
  }

  /**
   An unsubscribe takes exactly the handles of its own sort: all of them when it names none, and
   otherwise those it names. What it keeps stays in order, and what it closes it closes in order.
   */
  lemma {:induction false} UnsubscribeTakesExactly(hs: seq<Handle>, names: seq<seq<Byte>>, pattern: bool)
    ensures forall h :: h in Kept(hs, names, pattern) <==> h in hs && (h.pattern != pattern || (names != [] && h.name !in names))
    ensures forall id :: id in Dropped(hs, names, pattern)
                    <==> exists h :: h in hs && h.pattern == pattern && (names == [] || h.name in names) && h.sub == id
    ensures |Kept(hs, names, pattern)| + |Dropped(hs, names, pattern)| == |hs|
  {
    forall h
      ensures h in Kept(hs, names, pattern) <==> h in hs && (h.pattern != pattern || (names != [] && h.name !in names))
    {
      KeptAreFrom(hs, names, pattern, h);
    }
    forall id
      ensures id in Dropped(hs, names, pattern)
         <==> exists h :: h in hs && h.pattern == pattern && (names == [] || h.name in names) && h.sub == id
    {
      DroppedAreFrom(hs, names, pattern, id);
    }
    EachIsKeptOrDropped(hs, names, pattern);
  }

  lemma {:induction false} EachIsKeptOrDropped(hs: seq<Handle>, names: seq<seq<Byte>>, pattern: bool)
    ensures |Kept(hs, names, pattern)| + |Dropped(hs, names, pattern)| == |hs|
  {
    if hs != [] {
      EachIsKeptOrDropped(hs[..|hs| - 1], names, pattern);
    }
  }

  lemma {:induction false} KeptAreFrom(hs: seq<Handle>, names: seq<seq<Byte>>, pattern: bool, h: Handle)
    ensures h in Kept(hs, names, pattern) <==> h in hs && !Drops(h, names, pattern)
  {
    if hs != [] {
      KeptAreFrom(hs[..|hs| - 1], names, pattern, h);
      assert hs == hs[..|hs| - 1] + [hs[|hs| - 1]];
    }
  }

  lemma {:induction false} DroppedAreFrom(hs: seq<Handle>, names: seq<seq<Byte>>, pattern: bool, id: SubId)
    ensures id in Dropped(hs, names, pattern) <==> exists h :: h in hs && Drops(h, names, pattern) && h.sub == id
  {
    if hs != [] {
      DroppedAreFrom(hs[..|hs| - 1], names, pattern, id);
      assert hs == hs[..|hs| - 1] + [hs[|hs| - 1]];
    }
  }

  ghost predicate Distinct(hs: seq<Handle>) {
    forall i, j :: 0 <= i < j < |hs| ==> hs[i].sub != hs[j].sub
  }

  lemma {:induction false} KeptIsDistinct(hs: seq<Handle>, names: seq<seq<Byte>>, pattern: bool)
    requires Distinct(hs)
    ensures Distinct(Kept(hs, names, pattern))
  {
    if hs != [] {
      KeptIsDistinct(hs[..|hs| - 1], names, pattern);
      var front := Kept(hs[..|hs| - 1], names, pattern);
      forall i | 0 <= i < |front|
        ensures front[i].sub != hs[|hs| - 1].sub
      {
        KeptAreFrom(hs[..|hs| - 1], names, pattern, front[i]);
      }
    }
  }

  /** A remove partitions the handles: a subscription is kept open or closed, never both. */
  lemma {:induction false} KeptIsValid(hs: seq<Handle>, names: seq<seq<Byte>>, pattern: bool)
    requires Distinct(hs)
    ensures Distinct(Kept(hs, names, pattern))
    ensures forall i :: 0 <= i < |Kept(hs, names, pattern)| ==>
              Kept(hs, names, pattern)[i] in hs && Kept(hs, names, pattern)[i].sub !in Dropped(hs, names, pattern)
    ensures forall h :: h in hs ==> (h in Kept(hs, names, pattern) <==> h.sub !in Dropped(hs, names, pattern))
  {
    KeptIsDistinct(hs, names, pattern);
    forall h | h in hs
      ensures h in Kept(hs, names, pattern) <==> h.sub !in Dropped(hs, names, pattern)
    {
      KeptAreFrom(hs, names, pattern, h);
      DroppedAreFrom(hs, names, pattern, h.sub);
    }
    forall i | 0 <= i < |Kept(hs, names, pattern)|
      ensures Kept(hs, names, pattern)[i] in hs
    {
      KeptAreFrom(hs, names, pattern, Kept(hs, names, pattern)[i]);
    }
  }
}
