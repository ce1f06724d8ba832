/** Cluster topology and key routing: bindings/go/cluster.go. */
module Cluster {
  import opened Bytes
  import opened Resp
  import Crc

  const SLOTS := 16384
  const U16 := 65536

  datatype Address = Address(host: seq<Byte>, port: nat)
  datatype SlotRange = SlotRange(start: nat, end: nat, node: Address)

  predicate InU16(n: int) {
    0 <= n < U16
  }

  // --- CLUSTER SLOTS ----------------------------------------------------------------

  /** One row: start, end, the owner's host and port, and anything after them. */
  function ParseRow(row: Reply): Option<SlotRange> {
    if !row.Array? || |row.items| < 3 then None
    else
      var node := row.items[2];
      if !row.items[0].Int? || !row.items[1].Int? || !node.Array? || |node.items| < 2 then None
      else if !(node.items[0].Bulk? || node.items[0].Simple?) || !node.items[1].Int? then None
      else if !InU16(row.items[0].n) || !InU16(row.items[1].n) || !InU16(node.items[1].n) then None
      else Some(SlotRange(row.items[0].n, row.items[1].n, Address(node.items[0].bytes, node.items[1].n)))
  }

  /** parseClusterSlots: every row, or nothing. */
  method ParseClusterSlots(reply: Reply) returns (out: Option<seq<SlotRange>>)
    ensures out.Some? <==> reply.Array? && forall i :: 0 <= i < |reply.items| ==> ParseRow(reply.items[i]).Some?
    ensures out.Some? ==> |out.value| == |reply.items|
                          && forall i :: 0 <= i < |reply.items| ==> ParseRow(reply.items[i]) == Some(out.value[i])
  {
    if !reply.Array? {
      return None;
    }
    var ranges: seq<SlotRange> := [];
    for i := 0 to |reply.items|
      invariant |ranges| == i
      invariant forall j :: 0 <= j < i ==> ParseRow(reply.items[j]) == Some(ranges[j])
    {
      var row := ParseRow(reply.items[i]);
      if row.None? {
        return None;
      }
      ranges := ranges + [row.value];
    }
    return Some(ranges);
  }

  /** The row that a server prints for a range, with whatever it adds after the owner. */
  function PrintRow(r: SlotRange, replicas: seq<Reply>): Reply {
    Array([Int(r.start), Int(r.end), Array([Bulk(r.node.host), Int(r.node.port)])] + replicas)
  }

  /** A printed row parses to its range exactly when its numbers fit 16 bits. */
  lemma {:induction false} RowRoundTrip(r: SlotRange, replicas: seq<Reply>)
    ensures ParseRow(PrintRow(r, replicas)) == if InU16(r.start) && InU16(r.end) && InU16(r.node.port) then Some(r) else None
  {
    var row := PrintRow(r, replicas);
    assert row.items[0] == Int(r.start) && row.items[1] == Int(r.end);
    assert row.items[2] == Array([Bulk(r.node.host), Int(r.node.port)]);
  }

  /** The reply is a row for r: start, end and owner, each within 16 bits, and whatever else the server adds. */
  ghost predicate IsRow(row: Reply, r: SlotRange, host: Reply, extra: seq<Reply>, more: seq<Reply>) {
    && row == Array([Int(r.start), Int(r.end), Array([host, Int(r.node.port)] + extra)] + more)
    && (host == Bulk(r.node.host) || host == Simple(r.node.host))
    && r.start <= 65535 && r.end <= 65535 && r.node.port <= 65535
  }

  /** A row parses exactly when it has that shape, to exactly its range. */
  lemma {:induction false} RowExactly(row: Reply, r: SlotRange)
    ensures ParseRow(row) == Some(r) <==> exists host, extra, more :: IsRow(row, r, host, extra, more)
  {
    if ParseRow(row) == Some(r) {
      var node := row.items[2];
      var host, extra, more := node.items[0], node.items[2..], row.items[3..];
      assert node.items == [host, Int(r.node.port)] + extra;
      assert row.items == [Int(r.start), Int(r.end), node] + more;
      assert IsRow(row, r, host, extra, more);
    }
    if exists host, extra, more :: IsRow(row, r, host, extra, more) {
      var host, extra, more :| IsRow(row, r, host, extra, more);
      var node := Array([host, Int(r.node.port)] + extra);
      assert row.items[0] == Int(r.start) && row.items[1] == Int(r.end) && row.items[2] == node;
      assert node.items[0] == host && node.items[1] == Int(r.node.port);
    }
  }

  // --- Topology ----------------------------------------------------------------------

  datatype Built = NoRanges | IndexPanic | Built(nodes: seq<Address>, table: seq<nat>)

  /** The distinct owners of the first k ranges, in order of first appearance. */
  function Nodes(ranges: seq<SlotRange>, k: nat): (nodes: seq<Address>)
    requires k <= |ranges|
    ensures forall i :: 0 <= i < k ==> ranges[i].node in nodes
    ensures forall i, j :: 0 <= i < j < |nodes| ==> nodes[i] != nodes[j]
    ensures |nodes| <= k && (k > 0 ==> |nodes| > 0)
  {
    if k == 0 then []
    else
      var nodes := Nodes(ranges, k - 1);
      if ranges[k - 1].node in nodes then nodes else nodes + [ranges[k - 1].node]
  }

  /** Where an address first owns a range. */
  ghost predicate FirstOwns(ranges: seq<SlotRange>, a: Address, i: nat) {
    i < |ranges| && ranges[i].node == a && forall j :: 0 <= j < i ==> ranges[j].node != a
  }

  /** The nodes are the owners, each once, in the order in which they first own a range. */
  lemma {:induction false} NodesInOrder(ranges: seq<SlotRange>, k: nat, x: nat, y: nat) returns (i: nat, j: nat)
    requires k <= |ranges| && x < y < |Nodes(ranges, k)|
    ensures i < j < k && FirstOwns(ranges, Nodes(ranges, k)[x], i) && FirstOwns(ranges, Nodes(ranges, k)[y], j)
  {
    hide FirstOwns, Nodes;
    OneNodeMore(ranges, k);
    if y < |Nodes(ranges, k - 1)| {
      i, j := NodesInOrder(ranges, k - 1, x, y);
    } else {
      i := NodeOwns(ranges, k - 1, x);
      j := NodeOwns(ranges, k, y);
    }
  }

  lemma {:induction false} OneNodeMore(ranges: seq<SlotRange>, k: nat)
    requires 0 < k <= |ranges|
    ensures Nodes(ranges, k - 1) <= Nodes(ranges, k) && |Nodes(ranges, k)| <= |Nodes(ranges, k - 1)| + 1
  {
  }

  lemma {:induction false} NodeOwns(ranges: seq<SlotRange>, k: nat, x: nat) returns (i: nat)
    requires k <= |ranges| && x < |Nodes(ranges, k)|
    ensures i < k && FirstOwns(ranges, Nodes(ranges, k)[x], i)
    ensures x == |Nodes(ranges, k - 1)| ==> i == k - 1
  {
    if x < |Nodes(ranges, k - 1)| {
      i := NodeOwns(ranges, k - 1, x);
    } else {
      i := k - 1;
    }
  }

  predicate Contains(r: SlotRange, slot: nat) {
    r.start <= slot <= r.end
  }

  /** The last of the first k ranges that contains the slot, or -1. */
  function Owner(ranges: seq<SlotRange>, k: nat, slot: nat): (o: int)
    requires k <= |ranges|
    ensures -1 <= o < k && (o >= 0 ==> Contains(ranges[o], slot))
    ensures forall i :: o < i < k ==> !Contains(ranges[i], slot)
  {
    if k == 0 then -1
    else if Contains(ranges[k - 1], slot) then k - 1
    else Owner(ranges, k - 1, slot)
  }

  /** A range reaches past the table, so that filling it panics. */
  predicate Overruns(r: SlotRange) {
    r.start <= r.end && r.end >= SLOTS
  }

  /** It does so exactly when it contains a slot that the table lacks. */
  lemma {:induction false} OverrunsExactly(r: SlotRange)
    ensures Overruns(r) <==> exists slot :: slot >= 16384 && Contains(r, slot)
  {
    if Overruns(r) {
      assert Contains(r, r.end);
    }
  }

  /** After k ranges, a slot's entry is the index of its last range's owner, cut to 16 bits. */
  ghost predicate EntryOk(ranges: seq<SlotRange>, k: nat, entry: nat, slot: nat)
    requires k <= |ranges|
  {
    var o := Owner(ranges, k, slot);
    if o < 0 then entry == 0
    else exists idx: nat :: idx < |Nodes(ranges, k)| && Nodes(ranges, k)[idx] == ranges[o].node && entry == idx % U16
  }

  lemma {:induction false} NodesGrow(ranges: seq<SlotRange>, k: nat)
    requires k < |ranges|
    ensures Nodes(ranges, k) <= Nodes(ranges, k + 1)
  {
  }

  lemma {:induction false} EntrySurvives(ranges: seq<SlotRange>, k: nat, entry: nat, slot: nat)
    requires k < |ranges| && EntryOk(ranges, k, entry, slot) && !Contains(ranges[k], slot)
    ensures EntryOk(ranges, k + 1, entry, slot)
  {
    NodesGrow(ranges, k);
    var o := Owner(ranges, k, slot);
    if o >= 0 {
      var idx: nat :| idx < |Nodes(ranges, k)| && Nodes(ranges, k)[idx] == ranges[o].node && entry == idx % U16;
      assert Nodes(ranges, k + 1)[idx] == ranges[o].node;
    }
  }

  /** The table after k ranges. */
  ghost predicate TableOk(ranges: seq<SlotRange>, k: nat, table: seq<nat>)
    requires k <= |ranges|
  {
    |table| == SLOTS && forall slot :: 0 <= slot < SLOTS ==> EntryOk(ranges, k, table[slot], slot)
  }

  /** After k ranges: their owners, and the table. */
  ghost predicate Upto(ranges: seq<SlotRange>, k: nat, nodes: seq<Address>, table: seq<nat>)
    requires k <= |ranges|
  {
    nodes == Nodes(ranges, k) && TableOk(ranges, k, table)
  }

  /** The slots of the range hold the entry, and the others what they held. */
  ghost predicate Filled(table: seq<nat>, r: SlotRange, entry: nat, filled: seq<nat>) {
    |table| == |filled| == SLOTS && forall s :: 0 <= s < SLOTS ==> filled[s] == if Contains(r, s) then entry else table[s]
  }

  /** Filling one more range. */
  lemma {:induction false} TableStep(ranges: seq<SlotRange>, k: nat, table: seq<nat>, filled: seq<nat>, idx: nat)
    requires k < |ranges| && TableOk(ranges, k, table) && Filled(table, ranges[k], idx % U16, filled)
    requires idx < |Nodes(ranges, k + 1)| && Nodes(ranges, k + 1)[idx] == ranges[k].node
    ensures TableOk(ranges, k + 1, filled)
  {
    forall slot | 0 <= slot < SLOTS
      ensures EntryOk(ranges, k + 1, filled[slot], slot)
    {
      if !Contains(ranges[k], slot) {
        EntrySurvives(ranges, k, table[slot], slot);
      }
    }
  }

  /** The scan for a node with the same host and port. */
  method FindNode(nodes: seq<Address>, a: Address) returns (idx: int)
    ensures idx == -1 ==> a !in nodes
    ensures idx != -1 ==> 0 <= idx < |nodes| && nodes[idx] == a
  {
    for i := 0 to |nodes|
      invariant a !in nodes[..i]
    {
      if nodes[i].host == a.host && nodes[i].port == a.port {
        return i;
      }
    }
    assert nodes[..|nodes|] == nodes;
    return -1;
  }

  /** Filling one range's slots; false where the source's index is out of range. */
  method FillRange(table: seq<nat>, r: SlotRange, entry: nat) returns (ok: bool, filled: seq<nat>)
    requires |table| == SLOTS
    ensures ok <==> !Overruns(r)
    ensures ok ==> Filled(table, r, entry, filled)
  {
    filled := table;
    var slot := r.start;
    while slot <= r.end
      invariant r.start <= slot && (slot <= r.end + 1 || slot == r.start) && |filled| == SLOTS
      invariant slot > r.start ==> slot <= SLOTS
      invariant forall s :: 0 <= s < SLOTS ==> filled[s] == if r.start <= s < slot then entry else table[s]
    {
      if slot >= SLOTS {
        return false, table;
      }
      filled := filled[slot := entry];
      slot := slot + 1;
    }
    return true, filled;
  }

  /** The table before any range. */
  method NewTable(ghost ranges: seq<SlotRange>) returns (nodes: seq<Address>, table: seq<nat>)
    ensures Upto(ranges, 0, nodes, table)
  {
    nodes, table := [], seq(SLOTS, _ => 0);
  }

  lemma {:induction false} TableSize(ranges: seq<SlotRange>, k: nat, table: seq<nat>)
    requires k <= |ranges| && TableOk(ranges, k, table)
    ensures |table| == SLOTS
  {
  }

  lemma {:induction false} NodesNext(ranges: seq<SlotRange>, k: nat)
    requires k < |ranges|
    ensures Nodes(ranges, k + 1) == Nodes(ranges, k) + if ranges[k].node in Nodes(ranges, k) then [] else [ranges[k].node]
  {
  }

  /** One pass of the loop: the owner found or added, and its slots filled. */
  method AddRange(ranges: seq<SlotRange>, k: nat, nodes: seq<Address>, table: seq<nat>)
      returns (ok: bool, nodes': seq<Address>, table': seq<nat>)
    requires k < |ranges| && Upto(ranges, k, nodes, table)
    ensures ok <==> !Overruns(ranges[k])
    ensures ok ==> Upto(ranges, k + 1, nodes', table')
  {
    hide TableOk, Nodes, Overruns, Filled;
    var r := ranges[k];
    TableSize(ranges, k, table);
    NodesNext(ranges, k);
    nodes' := nodes;
    var idx := FindNode(nodes, r.node);
    if idx < 0 {
      nodes' := nodes + [r.node];
      idx := |nodes|;
    }
    ok, table' := FillRange(table, r, idx % U16);
    if ok {
      TableStep(ranges, k, table, table', idx);
    }
  }

  /** buildTopology */
  method BuildTopology(ranges: seq<SlotRange>) returns (b: Built)
    ensures ranges == [] <==> b.NoRanges?
    ensures b.IndexPanic? <==> exists i :: 0 <= i < |ranges| && Overruns(ranges[i])
    ensures b.Built? ==> Upto(ranges, |ranges|, b.nodes, b.table)
  {
    if ranges == [] {
      return NoRanges;
    }
    hide Upto, Overruns;
    var nodes, table := NewTable(ranges);
    for k := 0 to |ranges|
      invariant Upto(ranges, k, nodes, table)
      invariant forall i :: 0 <= i < k ==> !Overruns(ranges[i])
    {
      var ok;
      ok, nodes, table := AddRange(ranges, k, nodes, table);
      if !ok {
        return IndexPanic;
      }
    }
    return Built(nodes, table);
  }

  // --- Routing ------------------------------------------------------------------------------

  /** Non-empty ranges inside the slot space, no two of which share a slot, covering all of it. */
  ghost predicate Partition(ranges: seq<SlotRange>) {
    && (forall i :: 0 <= i < |ranges| ==> ranges[i].start <= ranges[i].end < SLOTS)
    && (forall i, j, slot :: 0 <= i < |ranges| && 0 <= j < |ranges| && Contains(ranges[i], slot) && Contains(ranges[j], slot) ==> i == j)
    && (forall slot :: 0 <= slot < SLOTS ==> Covered(ranges, slot))
  }

  ghost predicate Covered(ranges: seq<SlotRange>, slot: nat) {
    exists i :: 0 <= i < |ranges| && Contains(ranges[i], slot)
  }

  /** Disjoint non-empty ranges are no more than the slots: their starts are distinct. */
  lemma {:induction false} RangesFitSlots(ranges: seq<SlotRange>)
    requires Partition(ranges)
    ensures |ranges| <= SLOTS
  {
    var starts := set i | 0 <= i < |ranges| :: ranges[i].start;
    forall i, j | 0 <= i < j < |ranges|
      ensures ranges[i].start != ranges[j].start
    {
      assert Contains(ranges[i], ranges[i].start);
      assert Contains(ranges[j], ranges[j].start);
    }
    StartsCount(ranges, |ranges|);
    assert starts == set i | 0 <= i < |ranges| :: ranges[..|ranges|][i].start;
    forall s | s in starts
      ensures s in Below(SLOTS)
    {
    }
    assert Below(SLOTS) == starts + (Below(SLOTS) - starts);
  }

  function Below(n: nat): (b: set<nat>)
    ensures |b| == n && forall i: nat :: i in b <==> i < n
  {
    if n == 0 then {} else Below(n - 1) + {n - 1}
  }

  lemma {:induction false} StartsCount(ranges: seq<SlotRange>, k: nat)
    requires k <= |ranges|
    requires forall i, j :: 0 <= i < j < |ranges| ==> ranges[i].start != ranges[j].start
    ensures |set i | 0 <= i < k :: ranges[i].start| == k
  {
    var now := set i | 0 <= i < k :: ranges[i].start;
    if k == 0 {
      assert now == {};
    } else {
      StartsCount(ranges, k - 1);
      var before := set i | 0 <= i < k - 1 :: ranges[i].start;
      assert now == before + {ranges[k - 1].start};
    }
  }

  /** In a partition the table sends every slot to the node of its range, and 16 bits hold every index. */
  lemma {:induction false} TableRoutes(ranges: seq<SlotRange>, table: seq<nat>, slot: nat, i: nat)
    requires Partition(ranges) && TableOk(ranges, |ranges|, table)
    requires slot < SLOTS && i < |ranges| && Contains(ranges[i], slot)
    ensures var nodes := Nodes(ranges, |ranges|);
            |nodes| <= SLOTS && table[slot] < |nodes| && nodes[table[slot]] == ranges[i].node
  {
    RangesFitSlots(ranges);
    assert EntryOk(ranges, |ranges|, table[slot], slot);
  }

  /** The shard connections of ClusterConnect: one a node, in node order; a failed dial closes those already open. */
  method OpenShards(nodes: seq<Address>, reachable: Address -> bool)
      returns (shards: Option<seq<Address>>, dialed: seq<Address>, closed: seq<Address>)
    ensures shards.Some? <==> forall i :: 0 <= i < |nodes| ==> reachable(nodes[i])
    ensures shards.Some? ==> shards.value == nodes == dialed && closed == []
    ensures shards.None? ==> closed == dialed && dialed < nodes
  {
    dialed, closed := [], [];
    for i := 0 to |nodes|
      invariant dialed == nodes[..i] && forall j :: 0 <= j < i ==> reachable(nodes[j])
    {
      if !reachable(nodes[i]) {
        for j := 0 to |dialed|
          invariant closed == dialed[..j]
        {
          closed := closed + [dialed[j]];
        }
        return None, dialed, closed;
      }
      dialed := dialed + [nodes[i]];
    }
    return Some(dialed), dialed, closed;
  }

  /** The table sends the slot to the node of range r. */
  ghost predicate RoutesTo(ranges: seq<SlotRange>, table: seq<nat>, slot: nat, r: SlotRange) {
    var nodes := Nodes(ranges, |ranges|);
    slot < |table| && table[slot] < |nodes| && nodes[table[slot]] == r.node
  }

  /** What ClusterConnect holds: one connection a node, and the table over a partition of the slots. */
  ghost predicate Connected(ranges: seq<SlotRange>, shards: seq<Address>, table: seq<nat>) {
    Partition(ranges) && TableOk(ranges, |ranges|, table) && shards == Nodes(ranges, |ranges|)
  }

  /** shardFor: the connection of the key's slot, which is the owner's. */
  method ShardFor(shards: seq<Address>, table: seq<nat>, key: seq<bv8>, ghost ranges: seq<SlotRange>, ghost i: nat)
      returns (shard: Address)
    requires Connected(ranges, shards, table)
    requires i < |ranges| && Contains(ranges[i], Crc.SlotIndex(key))
    ensures shard == ranges[i].node
  {
    hide Crc.SlotIndex;
    var slot := Crc.KeyHashSlot(key);
    TableRoutes(ranges, table, slot, i);
    shard := shards[table[slot]];
  }

  /**
   Every key has one owning range, its lookups stay inside the table and the shard list, they
   reach that range's node, and a key goes where its hash tag goes.
   */
  lemma {:induction false} KeysReachTheirOwner(ranges: seq<SlotRange>, table: seq<nat>, key: seq<bv8>)
    requires Partition(ranges) && TableOk(ranges, |ranges|, table)
    ensures Covered(ranges, Crc.SlotIndex(key))
    ensures forall i :: 0 <= i < |ranges| && Contains(ranges[i], Crc.SlotIndex(key)) ==>
              RoutesTo(ranges, table, Crc.SlotIndex(key), ranges[i])
              && RoutesTo(ranges, table, Crc.SlotIndex(Crc.HashTag(key)), ranges[i])
  {
    hide Crc.SlotIndex, Crc.HashTag;
    Crc.KeysRouteWithTheirTag(key, key);
    var slot := Crc.SlotIndex(key);
    forall i | 0 <= i < |ranges| && Contains(ranges[i], slot)
      ensures RoutesTo(ranges, table, slot, ranges[i])
    {
      TableRoutes(ranges, table, slot, i);
    }
  }

  // --- From the reply to the owner's connection ---------------------------------------------------

  datatype Connect = Client(shards: seq<Address>, table: seq<nat>) | BadReply | Panicked | DialFailed

  /** The reply's rows are these ranges. */
  ghost predicate Lists(reply: Reply, ranges: seq<SlotRange>) {
    && reply.Array? && |reply.items| == |ranges|
    && forall i :: 0 <= i < |ranges| ==> ParseRow(reply.items[i]) == Some(ranges[i])
  }

  /** ClusterConnect, after the CLUSTER SLOTS reply: parse, build, dial. */
  method ClusterConnect(reply: Reply, reachable: Address -> bool) returns (c: Connect)
    ensures c.BadReply? <==> !exists ranges: seq<SlotRange> :: ranges != [] && Lists(reply, ranges)
    ensures forall ranges: seq<SlotRange> :: ranges != [] && Lists(reply, ranges) ==>
              && (c.Panicked? <==> exists i :: 0 <= i < |ranges| && Overruns(ranges[i]))
              && (c.DialFailed? ==> exists i :: 0 <= i < |ranges| && !reachable(ranges[i].node))
              && (c.Client? && Partition(ranges) ==> Connected(ranges, c.shards, c.table))
  {
    hide TableOk, Nodes, Partition, ParseRow;
    var parsed := ParseClusterSlots(reply);
    if parsed.None? || parsed.value == [] {
      NoListing(reply, parsed);
      return BadReply;
    }
    ghost var rows := parsed.value;
    assert Lists(reply, rows);
    OneListing(reply, rows);
    var b := BuildTopology(parsed.value);
    if b.IndexPanic? {
      return Panicked;
    }
    var shards, dialed, closed := OpenShards(b.nodes, reachable);
    if shards.None? {
      ghost var i :| 0 <= i < |b.nodes| && !reachable(b.nodes[i]);
      NodesComeFromRanges(rows, |rows|, b.nodes[i]);
      return DialFailed;
    }
    return Client(shards.value, b.table);
  }

  /** A reply lists one sequence of ranges. */
  lemma {:induction false} OneListing(reply: Reply, rows: seq<SlotRange>)
    requires Lists(reply, rows)
    ensures forall ranges :: Lists(reply, ranges) ==> ranges == rows
  {
    hide ParseRow;
    forall ranges | Lists(reply, ranges)
      ensures ranges == rows
    {
      forall i | 0 <= i < |rows|
        ensures ranges[i] == rows[i]
      {
        assert ParseRow(reply.items[i]) == Some(ranges[i]) && ParseRow(reply.items[i]) == Some(rows[i]);
      }
    }
  }

  lemma {:induction false} NoListing(reply: Reply, parsed: Option<seq<SlotRange>>)
    requires parsed.Some? <==> reply.Array? && forall i :: 0 <= i < |reply.items| ==> ParseRow(reply.items[i]).Some?
    requires parsed.Some? ==> parsed.value == [] && |reply.items| == 0
    ensures forall ranges :: Lists(reply, ranges) ==> ranges == []
  {
    hide ParseRow;
    forall ranges | Lists(reply, ranges)
      ensures ranges == []
    {
      assert parsed.Some?;
    }
  }

  lemma {:induction false} NodesComeFromRanges(ranges: seq<SlotRange>, k: nat, a: Address)
    requires k <= |ranges| && a in Nodes(ranges, k)
    ensures exists i :: 0 <= i < k && ranges[i].node == a
  {
    if k > 0 && a in Nodes(ranges, k - 1) {
      NodesComeFromRanges(ranges, k - 1, a);
    }
  }

  /** The reply that a server prints for its ranges. */
  function PrintSlots(ranges: seq<SlotRange>, replicas: seq<seq<Reply>>): Reply
    requires |replicas| == |ranges|
  {
    Array(seq(|ranges|, i requires 0 <= i < |ranges| => PrintRow(ranges[i], replicas[i])))
  }

  lemma {:induction false} PrintedSlotsAreListed(ranges: seq<SlotRange>, replicas: seq<seq<Reply>>)
    requires |replicas| == |ranges| && forall i :: 0 <= i < |ranges| ==> InU16(ranges[i].start) && InU16(ranges[i].end) && InU16(ranges[i].node.port)
    ensures Lists(PrintSlots(ranges, replicas), ranges)
  {
    hide ParseRow, PrintRow;
    forall i | 0 <= i < |ranges|
      ensures ParseRow(PrintSlots(ranges, replicas).items[i]) == Some(ranges[i])
    {
      RowRoundTrip(ranges[i], replicas[i]);
    }
  }

  /**
   End to end: connect to a cluster whose reply partitions the slots and whose nodes answer, and every
   keyed request goes out on the connection of the node that owns the key's slot.
   */
  method RouteKey(ranges: seq<SlotRange>, replicas: seq<seq<Reply>>, reachable: Address -> bool, key: seq<bv8>)
      returns (shard: Address)
    requires Partition(ranges) && |replicas| == |ranges| && forall i :: 0 <= i < |ranges| ==> InU16(ranges[i].node.port)
    requires forall i :: 0 <= i < |ranges| ==> reachable(ranges[i].node)
    ensures exists i :: 0 <= i < |ranges| && Contains(ranges[i], Crc.SlotIndex(key)) && shard == ranges[i].node
    ensures forall i :: 0 <= i < |ranges| && Contains(ranges[i], Crc.SlotIndex(key)) ==> shard == ranges[i].node
  {
    PartitionFits(ranges);
    PrintedSlotsAreListed(ranges, replicas);
    hide Partition, ParseRow, PrintSlots, Lists, TableOk, Nodes, Crc.SlotIndex;
    var c := ClusterConnect(PrintSlots(ranges, replicas), reachable);
    ghost var own := OwningRange(ranges, Crc.SlotIndex(key));
    shard := ShardFor(c.shards, c.table, key, ranges, own);
  }

  lemma {:induction false} PartitionFits(ranges: seq<SlotRange>)
    requires Partition(ranges)
    ensures ranges != [] && forall i :: 0 <= i < |ranges| ==> InU16(ranges[i].start) && InU16(ranges[i].end) && !Overruns(ranges[i])
  {
    assert Covered(ranges, 0);
  }

  lemma {:induction false} OwningRange(ranges: seq<SlotRange>, slot: nat) returns (i: nat)
    requires Partition(ranges) && slot < SLOTS
    ensures i < |ranges| && Contains(ranges[i], slot)
    ensures forall j :: 0 <= j < |ranges| && Contains(ranges[j], slot) ==> j == i
  {
    assert Covered(ranges, slot);
    i :| i < |ranges| && Contains(ranges[i], slot);
  }

  /** A row that ends one slot past the table is accepted by the parser, and building the topology of it panics. */
  lemma {:induction false} RowPastTheTable(host: seq<Byte>)
    ensures var r := SlotRange(0, 16384, Address(host, 6379)); ParseRow(PrintRow(r, [])) == Some(r) && Overruns(r)
  {
    RowRoundTrip(SlotRange(0, 16384, Address(host, 6379)), []);
  }
}
