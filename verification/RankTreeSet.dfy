/** The ordered set of crates/kevy-ranktree: its updates and its rank queries against a sorted sequence. */
module RankTreeSet {
  import opened Bytes
  import opened RankTree
  import RankTreeRemove

  // --- Counting to the left ---------------------------------------------------------------------

  lemma {:induction false} BeforeLength(cs: seq<Node>, ks: seq<Key>, i: nat, h: nat)
    requires |cs| == |ks| + 1 && i < |cs| && AllOk(cs, h)
    ensures |Before(cs, ks, i)| == i + Totals(cs[..i])
  {
    hide Weave;
    if i > 0 {
      assert AllOk(cs[..i], h);
      WeaveLength(cs[..i], ks[..i - 1], h);
    }
  }

  lemma {:induction false} TotalsStep(cs: seq<Node>, i: nat)
    requires i < |cs|
    ensures Totals(cs[..i + 1]) == Totals(cs[..i]) + cs[i].total
    decreases i
  {
    if i == 0 {
      assert cs[..1][1..] == [] && cs[..0] == [];
    } else {
      TotalsStep(cs[1..], i - 1);
      assert cs[..i + 1][1..] == cs[1..][..i] && cs[..i][1..] == cs[1..][..i - 1];
    }
  }

  /** for c in &children[..i] { acc += c.total } */
  method AddTotals(acc: nat, cs: seq<Node>, i: nat) returns (sum: nat)
    requires i <= |cs|
    ensures sum == acc + Totals(cs[..i])
  {
    sum := acc;
    for j := 0 to i
      invariant sum == acc + Totals(cs[..j])
    {
      TotalsStep(cs, j);
      sum := sum + cs[j].total;
    }
  }

  /** The keys of n lie in s after b and before a. */
  ghost predicate Within(s: seq<Key>, b: seq<Key>, n: Node, a: seq<Key>, h: nat) {
    s == b + InOrder(n) + a && Ok(n, h, 0, MAX_KEYS)
  }

  /** Going down into child i. */
  lemma {:induction false} Down(s: seq<Key>, b: seq<Key>, n: Node, a: seq<Key>, h: nat, i: nat)
    requires Within(s, b, n, a, h) && h > 0 && i < |n.children|
    ensures var b', a' := b + Before(n.children, n.keys, i), After(n.children, n.keys, i) + a;
            Within(s, b', n.children[i], a', h - 1) && |b'| == |b| + i + Totals(n.children[..i])
    ensures Ok(n.children[i], h - 1, MIN_KEYS, MAX_KEYS)
  {
    hide Before, After, Weave;
    AtChild(n.children, n.keys, i);
    BeforeLength(n.children, n.keys, i, h - 1);
    assert Ok(n.children[i], h - 1, MIN_KEYS, MAX_KEYS);
    var x, y, z := Before(n.children, n.keys, i), InOrder(n.children[i]), After(n.children, n.keys, i);
    assert b + (x + y + z) + a == b + x + y + (z + a);
  }

  /** Where separator i lies. */
  lemma {:induction false} SeparatorAt(s: seq<Key>, b: seq<Key>, n: Node, a: seq<Key>, h: nat, i: nat)
    requires Within(s, b, n, a, h) && i < |n.keys|
    ensures var p := if h == 0 then |b| + i else |b| + i + Totals(n.children[..i + 1]);
            p < |s| && s[p] == n.keys[i]
            && (h > 0 ==> s[p..] == After(n.children, n.keys, i) + a) && (h == 0 ==> s[p..] == n.keys[i..] + a)
  {
    hide Before, After, Weave;
    if h == 0 {
      LeafIs(n, h, 0, MAX_KEYS);
      assert s[|b| + i] == n.keys[i];
    } else {
      Down(s, b, n, a, h, i);
      TotalsStep(n.children, i);
      AfterSeparator(n, i);
      var x, y, z := b + Before(n.children, n.keys, i), InOrder(n.children[i]), After(n.children, n.keys, i) + a;
      assert s == (x + y) + z && |x + y| == |b| + i + Totals(n.children[..i + 1]);
    }
  }

  lemma {:induction false} AfterSeparator(n: Node, i: nat)
    requires |n.children| == |n.keys| + 1 && i < |n.keys|
    ensures After(n.children, n.keys, i) != [] && After(n.children, n.keys, i)[0] == n.keys[i]
  {
  }

  // --- Rank of a key -------------------------------------------------------------------------------

  /** rank_of: the number of keys below k if k is there, and nothing if it is not. */
  method RankOf(root: Node, k: Key, ghost top: nat) returns (rank: Option<nat>)
    requires Ok(root, top, 0, MAX_KEYS) && Sorted(InOrder(root))
    ensures rank == if k in InOrder(root) then Some(LowerBound(InOrder(root), k)) else None
  {
    hide *;
    ghost var s, b: seq<Key>, a: seq<Key>, h := InOrder(root), [], [], top;
    var node, acc := root, 0;
    AtTop(root, top, k);
    while true
      invariant Within(s, b, node, a, h) && acc == |b| && Fits(b, k, a)
      decreases h
    {
      var i := LowerBound(node.keys, k);
      if i < |node.keys| && node.keys[i] == k {
        RankHit(s, b, node, a, h, k);
        var n := if i + 1 < |node.children| then i + 1 else |node.children|;
        acc := AddTotals(acc, node.children, n);
        return Some(acc + i);
      }
      if node.children == [] {
        NotInLeaf(s, b, node, a, h, k);
        return None;
      }
      b, a := RankDown(s, b, node, a, h, k);
      acc := acc + i;
      acc := AddTotals(acc, node.children, i);
      node, h := node.children[i], h - 1;
    }
  }

  lemma {:induction false} AtTop(root: Node, top: nat, k: Key)
    requires Ok(root, top, 0, MAX_KEYS)
    ensures Within(InOrder(root), [], root, [], top) && Fits([], k, [])
  {
    hide Ok, InOrder;
    assert InOrder(root) == [] + InOrder(root) + [];
  }

  /** A separator that is k has as many keys before it as the search has counted. */
  lemma {:induction false} RankHit(s: seq<Key>, b: seq<Key>, n: Node, a: seq<Key>, h: nat, k: Key)
    requires Within(s, b, n, a, h) && Sorted(s) && LowerBound(n.keys, k) < |n.keys| && n.keys[LowerBound(n.keys, k)] == k
    ensures var i := LowerBound(n.keys, k);
            var c := if i + 1 < |n.children| then i + 1 else |n.children|;
            k in s && LowerBound(s, k) == |b| + Totals(n.children[..c]) + i
  {
    hide LowerBound;
    var i := LowerBound(n.keys, k);
    LeafOrInner(n, h);
    SeparatorAt(s, b, n, a, h, i);
    ByPosition(s, k, if h == 0 then |b| + i else |b| + i + Totals(n.children[..i + 1]));
  }

  /** One level down, on the way to k. */
  lemma {:induction false} RankDown(s: seq<Key>, b: seq<Key>, n: Node, a: seq<Key>, h: nat, k: Key) returns (b': seq<Key>, a': seq<Key>)
    requires Within(s, b, n, a, h) && n.children != [] && Sorted(s) && Fits(b, k, a)
    requires !(LowerBound(n.keys, k) < |n.keys| && n.keys[LowerBound(n.keys, k)] == k)
    ensures var i := LowerBound(n.keys, k);
            && h > 0 && i < |n.children| && Within(s, b', n.children[i], a', h - 1) && Fits(b', k, a')
            && |b'| == |b| + i + Totals(n.children[..i])
  {
    var i := LowerBound(n.keys, k);
    LeafOrInner(n, h);
    Down(s, b, n, a, h, i);
    FitsBelow(s, b, n, a, h, k);
    b', a' := b + Before(n.children, n.keys, i), After(n.children, n.keys, i) + a;
  }

  lemma {:induction false} LeafOrInner(n: Node, h: nat)
    requires Ok(n, h, 0, MAX_KEYS)
    ensures (n.children == [] <==> h == 0) && (h > 0 ==> |n.children| == |n.keys| + 1) && |n.keys| <= MAX_KEYS
    ensures n.children == [] ==> Totals(n.children[..0]) == 0 && InOrder(n) == n.keys
  {
  }

  lemma {:induction false} ByPosition(s: seq<Key>, k: Key, p: nat)
    requires Sorted(s) && p < |s| && s[p] == k
    ensures LowerBound(s, k) == p && k in s
  {
    BoundIs(s, k, p);
  }

  lemma {:induction false} NotInLeaf(s: seq<Key>, b: seq<Key>, n: Node, a: seq<Key>, h: nat, k: Key)
    requires Within(s, b, n, a, h) && n.children == [] && Sorted(s) && Fits(b, k, a)
    requires !(LowerBound(n.keys, k) < |n.keys| && n.keys[LowerBound(n.keys, k)] == k)
    ensures k !in s
  {
    LeafIs(n, h, 0, MAX_KEYS);
    BoundInMiddle(b, n.keys, a, k);
    SortedParts(b, n.keys, a);
    SortedBound(n.keys, k);
  }

  /** A key that is no separator lies under the child that the search names, and the rest lies around it. */
  lemma {:induction false} FitsBelow(s: seq<Key>, b: seq<Key>, n: Node, a: seq<Key>, h: nat, k: Key)
    requires Within(s, b, n, a, h) && h > 0 && Sorted(s) && Fits(b, k, a) && !Found(n.keys, k)
    ensures var i := LowerBound(n.keys, k);
            |n.children| == |n.keys| + 1
            && Fits(b + Before(n.children, n.keys, i), k, After(n.children, n.keys, i) + a)
  {
    hide Weave, Before, After;
    SortedParts(b, InOrder(n), a);
    UnderChild(n, h, 0, MAX_KEYS, k);
  }

  // --- Key at a rank -----------------------------------------------------------------------------------

  /** descend_to_rank, as far as one node: the child that rank lies under, or the separator that it is. */
  method WhichChild(n: Node, rank: nat, ghost h: nat) returns (i: nat, left: nat, onKey: bool)
    requires Ok(n, h, 0, MAX_KEYS) && h > 0 && rank < |InOrder(n)|
    ensures i < |n.children| && rank == i + Totals(n.children[..i]) + left
    ensures if onKey then i < |n.keys| && left == n.children[i].total else left < n.children[i].total
  {
    hide Weave, InOrder;
    i, left := 0, rank;
    InnerIs(n, h, 0, MAX_KEYS);
    WeaveLength(n.children, n.keys, h - 1);
    assert n.children[..|n.children|] == n.children;
    while true
      invariant i <= |n.keys| && rank == i + Totals(n.children[..i]) + left
      decreases |n.children| - i
    {
      TotalsStep(n.children, i);
      var below := n.children[i].total;
      if left < below {
        return i, left, false;
      }
      if left - below == 0 {
        if i == |n.keys| {
          assert false;
        }
        return i, left, true;
      }
      if i == |n.keys| {
        assert false;
      }
      left := left - below - 1;
      i := i + 1;
    }
  }

  /** select: the key with exactly rank keys before it, or nothing past the end. */
  method Select(root: Node, rank: nat, ghost top: nat) returns (k: Option<Key>)
    requires Ok(root, top, 0, MAX_KEYS)
    ensures k == if rank < |InOrder(root)| then Some(InOrder(root)[rank]) else None
  {
    assert root.total == |InOrder(root)|;
    hide Weave, InOrder, Before, After, Ok;
    if rank >= root.total {
      return None;
    }
    ghost var s, b: seq<Key>, a: seq<Key>, h := InOrder(root), [], [], top;
    var node, left: nat := root, rank;
    assert s == [] + s + [];
    while true
      invariant Within(s, b, node, a, h) && rank == |b| + left && left < |InOrder(node)|
      decreases h
    {
      LeafOrInner(node, h);
      if node.children == [] {
        SeparatorAt(s, b, node, a, h, left);
        return Some(node.keys[left]);
      }
      var i, rest, onKey := WhichChild(node, left, h);
      Down(s, b, node, a, h, i);
      if onKey {
        SeparatorAt(s, b, node, a, h, i);
        TotalsStep(node.children, i);
        return Some(node.keys[i]);
      }
      TotalIs(node.children[i], h - 1);
      b, a := b + Before(node.children, node.keys, i), After(node.children, node.keys, i) + a;
      node, h, left := node.children[i], h - 1, rest;
    }
  }

  lemma {:induction false} TotalIs(n: Node, h: nat)
    requires Ok(n, h, 0, MAX_KEYS)
    ensures n.total == |InOrder(n)|
  {
  }

  // --- Monotone predicates --------------------------------------------------------------------------------

  /** pred holds of a leading part of s. */
  ghost predicate Leading(s: seq<Key>, pred: Key -> bool) {
    forall i, j :: 0 <= i < j < |s| && pred(s[j]) ==> pred(s[i])
  }

  /** slice::partition_point */
  function Point(s: seq<Key>, pred: Key -> bool): (i: nat)
    ensures i <= |s| && (forall j :: 0 <= j < i ==> pred(s[j])) && (i < |s| ==> !pred(s[i]))
  {
    if s == [] || !pred(s[0]) then 0 else 1 + Point(s[1..], pred)
  }

  ghost predicate Divides(b: seq<Key>, pred: Key -> bool, a: seq<Key>) {
    (forall i :: 0 <= i < |b| ==> pred(b[i])) && (forall i :: 0 <= i < |a| ==> !pred(a[i]))
  }

  lemma {:induction false} PointIs(s: seq<Key>, pred: Key -> bool, p: nat)
    requires p <= |s| && Divides(s[..p], pred, s[p..])
    ensures Point(s, pred) == p
  {
    hide Point;
    var q := Point(s, pred);
    if p < |s| {
      assert !pred(s[p..][0]);
    }
    assert forall j :: 0 <= j < p ==> pred(s[..p][j]);
    assert !(q < p) && !(p < q);
  }

  lemma {:induction false} LeadingParts(b: seq<Key>, c: seq<Key>, a: seq<Key>, pred: Key -> bool)
    requires Leading(b + c + a, pred)
    ensures Leading(b, pred) && Leading(c, pred) && Leading(a, pred)
  {
    var s := b + c + a;
    assert forall i :: 0 <= i < |b| ==> s[i] == b[i];
    assert forall i :: 0 <= i < |c| ==> s[|b| + i] == c[i];
    assert forall i :: 0 <= i < |a| ==> s[|b| + |c| + i] == a[i];
  }

  lemma {:induction false} DividesBelow(s: seq<Key>, b: seq<Key>, n: Node, a: seq<Key>, h: nat, pred: Key -> bool)
    requires Within(s, b, n, a, h) && h > 0 && Leading(s, pred) && Divides(b, pred, a)
    ensures var i := Point(n.keys, pred);
            |n.children| == |n.keys| + 1
            && Divides(b + Before(n.children, n.keys, i), pred, After(n.children, n.keys, i) + a)
  {
    hide Weave;
    LeadingParts(b, InOrder(n), a, pred);
    var i := Point(n.keys, pred);
    AtChild(n.children, n.keys, i);
    var x, y, z := Before(n.children, n.keys, i), InOrder(n.children[i]), After(n.children, n.keys, i);
    LeadingParts(x, y, z, pred);
    hide Point;
    if i > 0 {
      assert x[|x| - 1] == n.keys[i - 1];
    }
    if i < |n.keys| {
      assert z[0] == n.keys[i];
    }
  }

  lemma {:induction false} DividesLeaf(s: seq<Key>, b: seq<Key>, n: Node, a: seq<Key>, h: nat, pred: Key -> bool)
    requires Within(s, b, n, a, h) && n.children == [] && Leading(s, pred) && Divides(b, pred, a)
    ensures Point(s, pred) == |b| + Point(n.keys, pred)
  {
    LeafIs(n, h, 0, MAX_KEYS);
    LeadingParts(b, n.keys, a, pred);
    hide Point;
    var i := Point(n.keys, pred);
    var p := |b| + i;
    assert s[..p] == b + n.keys[..i] && s[p..] == n.keys[i..] + a;
    PointIs(s, pred, p);
  }

  /** partition_point: how many leading keys satisfy a predicate that holds of a leading part. */
  method PartitionPoint(root: Node, pred: Key -> bool, ghost top: nat) returns (p: nat)
    requires Ok(root, top, 0, MAX_KEYS) && Leading(InOrder(root), pred)
    ensures p == Point(InOrder(root), pred)
  {
    hide Weave, InOrder, Before, After, Ok;
    ghost var s, b: seq<Key>, a: seq<Key>, h := InOrder(root), [], [], top;
    var node, acc := root, 0;
    assert s == [] + s + [];
    while true
      invariant Within(s, b, node, a, h) && acc == |b| && Divides(b, pred, a)
      decreases h
    {
      var i := Point(node.keys, pred);
      LeafOrInner(node, h);
      if node.children == [] {
        DividesLeaf(s, b, node, a, h, pred);
        return acc + i;
      }
      Down(s, b, node, a, h, i);
      DividesBelow(s, b, node, a, h, pred);
      acc := acc + i;
      acc := AddTotals(acc, node.children, i);
      b, a := b + Before(node.children, node.keys, i), After(node.children, node.keys, i) + a;
      node, h := node.children[i], h - 1;
    }
  }

  datatype Bound = Unbounded | Included(key: Key) | Excluded(key: Key)

  predicate AtLeast(x: Key, lo: Bound) {
    match lo case Unbounded => true case Included(k) => x >= k case Excluded(k) => x > k
  }

  predicate AtMost(x: Key, hi: Bound) {
    match hi case Unbounded => true case Included(k) => x <= k case Excluded(k) => x < k
  }

  /** bound_ranks and count_in: the keys inside the bounds are the count keys from rank lo on. */
  method CountIn(root: Node, from: Bound, to: Bound, ghost top: nat) returns (lo: nat, count: nat)
    requires Ok(root, top, 0, MAX_KEYS) && Sorted(InOrder(root))
    ensures var s := InOrder(root);
            && lo <= |s| && (count > 0 ==> lo + count <= |s|)
            && forall i :: 0 <= i < |s| ==> (lo <= i < lo + count <==> AtLeast(s[i], from) && AtMost(s[i], to))
  {
    TotalIs(root, top);
    hide InOrder, Ok, Sorted;
    lo := 0;
    match from {
      case Unbounded =>
      case Included(k) => lo := RankBelow(root, k, false, top);
      case Excluded(k) => lo := RankBelow(root, k, true, top);
    }
    var hi := root.total;
    match to {
      case Unbounded =>
      case Included(k) => hi := RankBelow(root, k, true, top);
      case Excluded(k) => hi := RankBelow(root, k, false, top);
    }
    count := if hi > lo then hi - lo else 0;
  }

  /** How many keys are below k, or are k as well. */
  method RankBelow(root: Node, k: Key, orEqual: bool, ghost top: nat) returns (p: nat)
    requires Ok(root, top, 0, MAX_KEYS) && Sorted(InOrder(root))
    ensures var s := InOrder(root);
            p <= |s| && forall i :: 0 <= i < |s| ==> (i < p <==> s[i] < k || (orEqual && s[i] == k))
  {
    var pred := x => x < k || (orEqual && x == k);
    ghost var s := InOrder(root);
    assert Leading(s, pred);
    hide InOrder, Ok, Point;
    p := PartitionPoint(root, pred, top);
    SplitsAt(s, pred, p);
  }

  lemma {:induction false} SplitsAt(s: seq<Key>, pred: Key -> bool, p: nat)
    requires Leading(s, pred) && p == Point(s, pred)
    ensures p <= |s| && forall i :: 0 <= i < |s| ==> (i < p <==> pred(s[i]))
  {
  }

  // --- The set -------------------------------------------------------------------------------------------

  class RankSet {
    var root: Node
    ghost var height: nat

    ghost predicate Valid()
      reads this
    {
      Ok(root, height, if height == 0 then 0 else 1, MAX_KEYS) && Sorted(InOrder(root))
    }

    /** The keys, in order: the sorted vector that the tree stands for. */
    ghost function Contents(): seq<Key>
      reads this
    {
      InOrder(root)
    }

    constructor ()
      ensures Valid() && Contents() == []
    {
      root, height := Node([], [], 0), 0;
    }

    /** insert */
    method Insert(k: Key) returns (inserted: bool)
      requires Valid()
      modifies this
      ensures Valid() && Contents() == With(old(Contents()), k)
      ensures inserted <==> k !in old(Contents())
    {
      hide InOrder, Weave, With, Ok, Sorted, Root;
      StaysSorted(InOrder(root), k);
      var m, split;
      m, inserted, split := InsertRec(root, k, height, if height == 0 then 0 else 1);
      match split {
        case NoSplit =>
          root := m;
        case Halves(median, right) =>
          root := Root(m, median, right);
          NewRoot(m, median, right, height);
          height := height + 1;
      }
    }

    /** remove */
    method Remove(k: Key) returns (removed: bool)
      requires Valid()
      modifies this
      ensures Valid() && Contents() == Without(old(Contents()), k)
      ensures removed <==> k in old(Contents())
    {
      hide InOrder, Weave, Without, Sorted;
      StaysSorted(InOrder(root), k);
      var m;
      m, removed := RankTreeRemove.RemoveRec(root, k, height, if height == 0 then 0 else 1);
      if m.keys == [] && m.children != [] {
        Shrink(m, height);
        root := m.children[0];
        height := height - 1;
      } else {
        root := m;
      }
    }

    /** len */
    method Len() returns (n: nat)
      requires Valid()
      ensures n == |Contents()|
    {
      n := root.total;
    }
  }

  lemma {:induction false} StaysSorted(s: seq<Key>, k: Key)
    requires Sorted(s)
    ensures Sorted(With(s, k)) && Sorted(Without(s, k))
  {
    WithKeepsSorted(s, k);
  }

  /** The root of a tree that has grown a level. */
  function Root(left: Node, k: Key, right: Node): Node {
    Counted([k], [left, right])
  }

  lemma {:induction false} NewRoot(left: Node, k: Key, right: Node, h: nat)
    requires Ok(left, h, MIN_KEYS, MAX_KEYS) && Ok(right, h, MIN_KEYS, MAX_KEYS)
    ensures var n := Root(left, k, right); Ok(n, h + 1, 1, MAX_KEYS) && InOrder(n) == InOrder(left) + [k] + InOrder(right)
  {
    hide InOrder;
    var cs := [left, right];
    assert AllOk(cs, h);
    CountedIsOk([k], cs, h + 1, 1, MAX_KEYS);
    assert cs[1..] == [right] && [k][1..] == [];
    assert Weave([right], []) == InOrder(right);
  }

  lemma {:induction false} Shrink(n: Node, h: nat)
    requires Ok(n, h, 0, MAX_KEYS) && n.keys == [] && n.children != []
    ensures h > 0 && Ok(n.children[0], h - 1, MIN_KEYS, MAX_KEYS) && InOrder(n) == InOrder(n.children[0])
  {
    assert Ok(n.children[0], h - 1, MIN_KEYS, MAX_KEYS);
  }

  // --- The promises, over whole histories ----------------------------------------------------------------

  /** select inverts rank_of, both ways: ranks are positions in one sorted sequence. */
  lemma {:induction false} SelectInvertsRank(s: seq<Key>, k: Key, rank: nat)
    requires Sorted(s)
    ensures k in s ==> LowerBound(s, k) < |s| && s[LowerBound(s, k)] == k
    ensures rank < |s| ==> LowerBound(s, s[rank]) == rank
  {
    SortedBound(s, k);
    if rank < |s| {
      ByPosition(s, s[rank], rank);
    }
  }

  datatype Op = Add(k: Key) | Drop(k: Key)

  /** The sorted vector after a history of inserts and removes. */
  function Vector(ops: seq<Op>): seq<Key> {
    if ops == [] then []
    else
      var s := Vector(ops[..|ops| - 1]);
      match ops[|ops| - 1] case Add(k) => With(s, k) case Drop(k) => Without(s, k)
  }

  /** The last operation on a key decides whether it is there, and the vector is sorted: it is determined by that. */
  function Member(ops: seq<Op>, k: Key): bool {
    ops != [] && (ops[|ops| - 1] == Add(k) || (ops[|ops| - 1] != Drop(k) && Member(ops[..|ops| - 1], k)))
  }

  lemma {:induction false} HistoryDecides(ops: seq<Op>, k: Key)
    ensures Sorted(Vector(ops)) && (k in Vector(ops) <==> Member(ops, k))
    decreases |ops|
  {
    hide With, Without;
    if ops != [] {
      var n := |ops| - 1;
      HistoryDecides(ops[..n], k);
      match ops[n]
      case Add(x) => WithKeepsSorted(Vector(ops[..n]), x);
      case Drop(x) => WithKeepsSorted(Vector(ops[..n]), x);
    }
  }

  /** A history run on the set gives the sorted vector of that history. */
  method Replay(ops: seq<Op>) returns (t: RankSet)
    ensures t.Valid() && t.Contents() == Vector(ops)
  {
    hide With, Without, InOrder;
    t := new RankSet();
    assert ops[..0] == [];
    for i := 0 to |ops|
      invariant fresh(t) && t.Valid() && t.Contents() == Vector(ops[..i])
    {
      assert ops[..i + 1][..i] == ops[..i];
      match ops[i] {
        case Add(k) => var _ := t.Insert(k);
        case Drop(k) => var _ := t.Remove(k);
      }
    }
    assert ops[..|ops|] == ops;
  }
}
