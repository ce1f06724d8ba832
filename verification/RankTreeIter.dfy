/** The in-order iterator of crates/kevy-ranktree: a stack of resume points, started at any rank. */
module RankTreeIter {
  import opened Bytes
  import opened RankTree
  import opened RankTreeSet

  const MAX_HEIGHT: nat := 24
  const USIZE: nat := 0x1_0000_0000_0000_0000

  /** node.keys[i] is the next key this node owes. */
  datatype Resume = Resume(node: Node, i: nat)

  /** Everything from that key on. */
  function Owes(r: Resume): seq<Key>
    requires r.i < |r.node.keys| && (r.node.children == [] || |r.node.children| == |r.node.keys| + 1)
  {
    if r.node.children == [] then r.node.keys[r.i..] else After(r.node.children, r.node.keys, r.i)
  }

  /** The resume points of a walk: each deeper than the one below it in the stack. */
  ghost predicate Path(stack: seq<Resume>, hs: seq<nat>) {
    && |hs| == |stack|
    && (forall j :: 0 <= j < |stack| ==> Ok(stack[j].node, hs[j], 0, MAX_KEYS) && stack[j].i < |stack[j].node.keys|)
    && (forall j, k :: 0 <= j < k < |hs| ==> hs[k] < hs[j])
  }

  /** What is left to yield: the top of the stack first. */
  ghost function Rest(stack: seq<Resume>, hs: seq<nat>): seq<Key>
    requires Path(stack, hs)
  {
    if stack == [] then []
    else
      var n := |stack| - 1;
      LeafOrInner(stack[n].node, hs[n]);
      Owes(stack[n]) + Rest(stack[..n], hs[..n])
  }

  lemma {:induction false} Pushed(stack: seq<Resume>, hs: seq<nat>, r: Resume, h: nat)
    requires Path(stack, hs) && Ok(r.node, h, 0, MAX_KEYS) && r.i < |r.node.keys| && (hs != [] ==> h < hs[|hs| - 1])
    ensures Path(stack + [r], hs + [h])
    ensures r.node.children == [] || |r.node.children| == |r.node.keys| + 1
    ensures Rest(stack + [r], hs + [h]) == Owes(r) + Rest(stack, hs)
  {
    LeafOrInner(r.node, h);
    assert (stack + [r])[..|stack|] == stack && (hs + [h])[..|hs|] == hs;
  }

  /** Depths fall along the stack, so it is no longer than the tree is high. */
  lemma {:induction false} PathIsShort(hs: seq<nat>, top: nat)
    requires (forall j, k :: 0 <= j < k < |hs| ==> hs[k] < hs[j]) && (hs != [] ==> hs[0] <= top)
    ensures |hs| <= top + 1
    decreases |hs|
  {
    if |hs| > 1 {
      assert hs[1] < hs[0];
      PathIsShort(hs[1..], hs[0] - 1);
    }
  }

  // --- How high a tree can be -----------------------------------------------------------------------

  function Power8(h: nat): nat {
    if h == 0 then 1 else 8 * Power8(h - 1)
  }

  lemma {:induction false} ManyKeys(n: Node, h: nat)
    requires Ok(n, h, MIN_KEYS, MAX_KEYS)
    ensures |InOrder(n)| + 1 >= Power8(h + 1)
    decreases h, 0
  {
    if h > 0 {
      ManyInAll(n.children, n.keys, h - 1);
      InnerIs(n, h, MIN_KEYS, MAX_KEYS);
      hide InOrder, Weave;
      EightTimes(|n.children|, Power8(h));
    } else {
      assert Power8(1) == 8;
    }
  }

  lemma {:induction false} ManyInAll(cs: seq<Node>, ks: seq<Key>, h: nat)
    requires |cs| == |ks| + 1 && AllOk(cs, h)
    ensures |Weave(cs, ks)| + 1 >= |cs| * Power8(h + 1)
    decreases h, 1, |ks|
  {
    hide InOrder, Power8;
    assert Ok(cs[0], h, MIN_KEYS, MAX_KEYS);
    ManyKeys(cs[0], h);
    if ks == [] {
      assert |cs| * Power8(h + 1) == Power8(h + 1);
    } else {
      ManyInAll(cs[1..], ks[1..], h);
      OneMoreTimes(|cs|, Power8(h + 1));
    }
  }

  lemma {:induction false} EightTimes(n: nat, p: nat)
    requires n >= 8
    ensures n * p >= 8 * p
  {
  }

  lemma {:induction false} OneMoreTimes(n: nat, p: nat)
    requires n > 0
    ensures n * p == (n - 1) * p + p
  {
  }

  lemma {:induction false} Power8Grows(a: nat, b: nat)
    requires a <= b
    ensures Power8(a) <= Power8(b)
  {
    if a < b {
      Power8Grows(a, b - 1);
    }
  }

  lemma {:induction false} Power8At24()
    ensures Power8(24) == 0x1_00_0000_0000_0000_0000
  {
    assert Power8(4) == 0x1000;
    assert Power8(8) == 0x100_0000;
    assert Power8(12) == 0x10_0000_0000;
    assert Power8(16) == 0x1_0000_0000_0000;
    assert Power8(20) == 0x1000_0000_0000_0000;
    assert Power8(24) == 0x100_0000_0000_0000_0000;
  }

  /** A tree whose count fits a usize has at most MAX_HEIGHT levels. */
  lemma {:induction false} HeightFits(root: Node, h: nat)
    requires Ok(root, h, if h == 0 then 0 else 1, MAX_KEYS) && root.total < USIZE
    ensures h + 1 <= MAX_HEIGHT
  {
    hide Power8;
    if h > 0 {
      ManyInAll(root.children, root.keys, h - 1);
      Doubled(|root.children|, Power8(h));
      Power8At24();
      if h >= 24 {
        Power8Grows(24, h);
        assert false;
      }
    }
  }

  lemma {:induction false} Doubled(n: nat, p: nat)
    requires n >= 2
    ensures n * p >= p + p
  {
  }

  // --- Pushing and popping ------------------------------------------------------------------------------

  /** Path::push, whose array index is in range. */
  method Push(stack: seq<Resume>, r: Resume) returns (more: seq<Resume>)
    requires |stack| < MAX_HEIGHT
    ensures more == stack + [r]
  {
    more := stack + [r];
  }

  /** A path below a root of that height: there is room for one more level. */
  ghost predicate Fitting(stack: seq<Resume>, hs: seq<nat>, top: nat) {
    Path(stack, hs) && (hs != [] ==> hs[0] <= top) && top + 1 <= MAX_HEIGHT
  }

  lemma {:induction false} RoomFor(stack: seq<Resume>, hs: seq<nat>, top: nat, h: nat)
    requires Fitting(stack, hs, top) && h <= top && (hs != [] ==> h < hs[|hs| - 1])
    ensures |stack| < MAX_HEIGHT
  {
    PathIsShort(hs + [h], top);
  }

  /** A push, with what it owes. */
  lemma {:induction false} PushKeeps(stack: seq<Resume>, hs: seq<nat>, top: nat, r: Resume, h: nat)
    requires Fitting(stack, hs, top) && h <= top && (hs != [] ==> h < hs[|hs| - 1])
    requires Ok(r.node, h, 0, MAX_KEYS) && r.i < |r.node.keys|
    ensures r.node.children == [] || |r.node.children| == |r.node.keys| + 1
    ensures |stack| < MAX_HEIGHT && Fitting(stack + [r], hs + [h], top)
    ensures Rest(stack + [r], hs + [h]) == Owes(r) + Rest(stack, hs)
  {
    hide Rest, Owes;
    RoomFor(stack, hs, top, h);
    Pushed(stack, hs, r, h);
  }

  lemma {:induction false} PopKeeps(stack: seq<Resume>, hs: seq<nat>, top: nat)
    requires Fitting(stack, hs, top) && stack != []
    ensures var n := |stack| - 1;
            && Fitting(stack[..n], hs[..n], top) && hs[n] <= top && (n > 0 ==> hs[n] < hs[..n][n - 1])
            && Ok(stack[n].node, hs[n], 0, MAX_KEYS) && stack[n].i < |stack[n].node.keys|
            && (stack[n].node.children == [] || |stack[n].node.children| == |stack[n].node.keys| + 1)
            && Rest(stack, hs) == Owes(stack[n]) + Rest(stack[..n], hs[..n])
  {
    hide Owes;
    var n := |stack| - 1;
    LeafOrInner(stack[n].node, hs[n]);
    if n > 0 {
      assert hs[n] < hs[0];
    }
  }

  /** After a separator come the keys of the next child, and then what the next separator owes. */
  lemma {:induction false} AfterStep(cs: seq<Node>, ks: seq<Key>, i: nat)
    requires |cs| == |ks| + 1 && i < |ks|
    ensures After(cs, ks, i) == [ks[i]] + (InOrder(cs[i + 1]) + After(cs, ks, i + 1))
  {
    hide Weave, InOrder;
    var cs', ks' := cs[i + 1..], ks[i + 1..];
    AtChild(cs', ks', 0);
    assert cs'[0] == cs[i + 1] && cs'[1..] == cs[i + 2..];
    assert After(cs', ks', 0) == After(cs, ks, i + 1) by {
      if ks' != [] {
        assert ks'[0] == ks[i + 1] && ks'[1..] == ks[i + 2..];
      }
    }
    assert [] + InOrder(cs[i + 1]) == InOrder(cs[i + 1]);
  }

  /** descend_left: the first keys of a subtree, on top of what was owed before. */
  method DescendLeft(stack: seq<Resume>, n: Node, ghost hs: seq<nat>, ghost h: nat, ghost top: nat)
      returns (more: seq<Resume>, ghost hs': seq<nat>)
    requires Fitting(stack, hs, top) && Ok(n, h, MIN_KEYS, MAX_KEYS) && h <= top && (hs != [] ==> h < hs[|hs| - 1])
    ensures Fitting(more, hs', top) && Rest(more, hs') == InOrder(n) + Rest(stack, hs)
  {
    hide *;
    FittingPath(stack, hs, top);
    more, hs' := stack, hs;
    var node := n;
    ghost var depth: nat, whole := h, InOrder(n) + Rest(stack, hs);
    while true
      invariant Fitting(more, hs', top) && Ok(node, depth, MIN_KEYS, MAX_KEYS) && depth <= top
      invariant (hs' != [] ==> depth < hs'[|hs'| - 1]) && Path(more, hs') && whole == InOrder(node) + Rest(more, hs')
      decreases depth
    {
      FirstStep(node, depth);
      PushKeeps(more, hs', top, Resume(node, 0), depth);
      var r := Resume(node, 0);
      if node.children == [] {
        more := Push(more, r);
        hs' := hs' + [depth];
        return;
      }
      assert InOrder(node.children[0]) + Owes(r) + Rest(more, hs') == InOrder(node.children[0]) + (Owes(r) + Rest(more, hs'));
      more := Push(more, r);
      hs' := hs' + [depth];
      FittingPath(more, hs', top);
      node, depth := node.children[0], depth - 1;
    }
  }

  lemma {:induction false} FittingPath(stack: seq<Resume>, hs: seq<nat>, top: nat)
    requires Fitting(stack, hs, top)
    ensures Path(stack, hs) && |hs| == |stack|
  {
  }

  /** What the first resume point of a node owes, and what is left of it. */
  lemma {:induction false} FirstStep(n: Node, h: nat)
    requires Ok(n, h, MIN_KEYS, MAX_KEYS)
    ensures Ok(n, h, 0, MAX_KEYS) && 0 < |n.keys| && (n.children == [] || |n.children| == |n.keys| + 1)
    ensures n.children == [] ==> Owes(Resume(n, 0)) == InOrder(n)
    ensures n.children != [] ==> h > 0 && Ok(n.children[0], h - 1, MIN_KEYS, MAX_KEYS)
                                 && InOrder(n) == InOrder(n.children[0]) + Owes(Resume(n, 0))
  {
    if n.children == [] {
      LeafIs(n, h, MIN_KEYS, MAX_KEYS);
    } else {
      InnerIs(n, h, MIN_KEYS, MAX_KEYS);
      assert Ok(n.children[0], h - 1, MIN_KEYS, MAX_KEYS);
      AtChild(n.children, n.keys, 0);
    }
  }

  // --- The iterator ---------------------------------------------------------------------------------------

  /** new_from: the resume points of the walk to a rank owe exactly the keys from that rank on. */
  method StackAt(root: Node, rank: nat, ghost top: nat) returns (stack: seq<Resume>, ghost hs: seq<nat>)
    requires Ok(root, top, 0, MAX_KEYS) && rank < |InOrder(root)| && top + 1 <= MAX_HEIGHT
    ensures Fitting(stack, hs, top) && Rest(stack, hs) == InOrder(root)[rank..]
  {
    hide *;
    stack, hs := [], [];
    ghost var s, b: seq<Key>, a: seq<Key>, h: nat := InOrder(root), [], [], top;
    var node, left: nat := root, rank;
    Started(root, top);
    while true
      invariant Within(s, b, node, a, h) && rank == |b| + left && left < |InOrder(node)|
      invariant Fitting(stack, hs, top) && Path(stack, hs) && Rest(stack, hs) == a
      invariant h <= top && (hs != [] ==> h < hs[|hs| - 1])
      decreases h
    {
      Landing(s, b, node, a, h);
      if node.children == [] {
        LastOwes(s, b, node, a, h, left);
        PushKeeps(stack, hs, top, Resume(node, left), h);
        stack := Push(stack, Resume(node, left));
        hs := hs + [h];
        return;
      }
      var i, rest, onKey := WhichChild(node, left, h);
      if onKey {
        SeparatorOwes(s, b, node, a, h, i, left);
        PushKeeps(stack, hs, top, Resume(node, i), h);
        stack := Push(stack, Resume(node, i));
        hs := hs + [h];
        return;
      }
      ghost var b', a' := Deeper(s, b, node, a, h, i);
      if i < |node.keys| {
        PushKeeps(stack, hs, top, Resume(node, i), h);
        stack := Push(stack, Resume(node, i));
        hs := hs + [h];
        FittingPath(stack, hs, top);
      }
      b, a := b', a';
      node, h, left := node.children[i], h - 1, rest;
    }
  }

  lemma {:induction false} Started(root: Node, top: nat)
    requires Ok(root, top, 0, MAX_KEYS) && top + 1 <= MAX_HEIGHT
    ensures Within(InOrder(root), [], root, [], top) && Fitting([], [], top) && Path([], []) && Rest([], []) == []
  {
    hide Ok, InOrder;
    assert InOrder(root) == [] + InOrder(root) + [];
  }

  lemma {:induction false} Landing(s: seq<Key>, b: seq<Key>, n: Node, a: seq<Key>, h: nat)
    requires Within(s, b, n, a, h)
    ensures Ok(n, h, 0, MAX_KEYS) && (n.children == [] <==> h == 0) && (n.children == [] || |n.children| == |n.keys| + 1)
    ensures n.children == [] ==> InOrder(n) == n.keys
  {
    LeafOrInner(n, h);
  }

  lemma {:induction false} LastOwes(s: seq<Key>, b: seq<Key>, n: Node, a: seq<Key>, h: nat, i: nat)
    requires Within(s, b, n, a, h) && n.children == [] && i < |n.keys|
    ensures |b| + i <= |s| && s[|b| + i..] == Owes(Resume(n, i)) + a
  {
    LeafIs(n, h, 0, MAX_KEYS);
    SeparatorAt(s, b, n, a, h, i);
  }

  lemma {:induction false} SeparatorOwes(s: seq<Key>, b: seq<Key>, n: Node, a: seq<Key>, h: nat, i: nat, left: nat)
    requires Within(s, b, n, a, h) && h > 0 && i < |n.keys| && |n.children| == |n.keys| + 1
    requires left == i + Totals(n.children[..i]) + n.children[i].total
    ensures |b| + left <= |s| && s[|b| + left..] == Owes(Resume(n, i)) + a
  {
    hide After;
    SeparatorAt(s, b, n, a, h, i);
    TotalsStep(n.children, i);
  }

  lemma {:induction false} Deeper(s: seq<Key>, b: seq<Key>, n: Node, a: seq<Key>, h: nat, i: nat) returns (b': seq<Key>, a': seq<Key>)
    requires Within(s, b, n, a, h) && h > 0 && |n.children| == |n.keys| + 1 && i < |n.children|
    ensures Within(s, b', n.children[i], a', h - 1) && |b'| == |b| + i + Totals(n.children[..i])
    ensures n.children[i].total == |InOrder(n.children[i])|
    ensures a' == if i < |n.keys| then Owes(Resume(n, i)) + a else a
  {
    hide Weave;
    Down(s, b, n, a, h, i);
    TotalIs(n.children[i], h - 1);
    b', a' := b + Before(n.children, n.keys, i), After(n.children, n.keys, i) + a;
  }

  /** What one key costs: it comes off the top, and the rest is owed by one resume point and one subtree. */
  lemma {:induction false} OwesNext(r: Resume, h: nat)
    requires Ok(r.node, h, 0, MAX_KEYS) && r.i < |r.node.keys| && (r.node.children == [] || |r.node.children| == |r.node.keys| + 1)
    ensures var below := if r.node.children == [] then [] else InOrder(r.node.children[r.i + 1]);
            Owes(r) == [r.node.keys[r.i]] + (below + Later(r))
    ensures r.node.children != [] ==> h > 0 && Ok(r.node.children[r.i + 1], h - 1, MIN_KEYS, MAX_KEYS)
  {
    hide Weave, InOrder;
    var n, i := r.node, r.i;
    if n.children == [] {
      assert n.keys[i..] == [n.keys[i]] + n.keys[i + 1..];
    } else {
      AfterStep(n.children, n.keys, i);
      InnerIs(n, h, 0, MAX_KEYS);
      assert Ok(n.children[i + 1], h - 1, MIN_KEYS, MAX_KEYS);
    }
  }

  /** At most cap keys of s from a rank on. */
  function Stretch(s: seq<Key>, rank: nat, cap: nat): seq<Key> {
    if rank >= |s| then [] else s[rank..rank + if cap < |s| - rank then cap else |s| - rank]
  }

  class Iter {
    var stack: seq<Resume>
    var remaining: nat
    ghost var hs: seq<nat>
    ghost const top: nat

    ghost predicate Valid()
      reads this
    {
      Fitting(stack, hs, top) && Path(stack, hs) && remaining <= |Rest(stack, hs)|
    }

    /** The keys still to come. */
    ghost function Left(): seq<Key>
      requires Valid()
      reads this
    {
      Rest(stack, hs)[..remaining]
    }

    /** new_from and capped: at most cap of the keys from a rank on. */
    constructor (root: Node, rank: nat, cap: nat, ghost h: nat)
      requires Ok(root, h, if h == 0 then 0 else 1, MAX_KEYS) && root.total < USIZE
      ensures Valid()
      ensures Left() == Stretch(InOrder(root), rank, cap)
    {
      stack, hs, top := [], [], h;
      var n := if rank < root.total then root.total - rank else 0;
      remaining := if cap < n then cap else n;
      new;
      HeightFits(root, h);
      Lowered(root, h);
      Started(root, h);
      if n > 0 {
        var st: seq<Resume>;
        ghost var heights: seq<nat>;
        st, heights := StackAt(root, rank, h);
        FittingPath(st, heights, h);
        stack, hs := st, heights;
      }
    }

    /** next: the first of the keys still to come. */
    method Next() returns (k: Option<Key>)
      requires Valid()
      modifies this
      ensures Valid()
      ensures if old(Left()) == [] then k == None && Left() == [] else k == Some(old(Left())[0]) && Left() == old(Left())[1..]
    {
      if remaining == 0 {
        return None;
      }
      ghost var all := Rest(stack, hs);
      var st, key;
      ghost var heights: seq<nat>;
      st, key, heights := Take(stack, hs, top);
      stack, hs, remaining := st, heights, remaining - 1;
      assert all[..remaining + 1][1..] == all[1..][..remaining];
      return Some(key);
    }
  }

  lemma {:induction false} Lowered(n: Node, h: nat)
    requires Ok(n, h, if h == 0 then 0 else 1, MAX_KEYS)
    ensures Ok(n, h, 0, MAX_KEYS) && n.total == |InOrder(n)|
  {
  }

  /** The body of next. */
  method Take(stack: seq<Resume>, ghost hs: seq<nat>, ghost top: nat)
      returns (more: seq<Resume>, key: Key, ghost hs': seq<nat>)
    requires Fitting(stack, hs, top) && Path(stack, hs) && Rest(stack, hs) != []
    ensures Fitting(more, hs', top) && Path(more, hs') && Rest(stack, hs) == [key] + Rest(more, hs')
  {
    hide *;
    RestIsOwed(stack, hs);
    FittingPath(stack, hs, top);
    PopKeeps(stack, hs, top);
    var n := |stack| - 1;
    var r := stack[n];
    FittingPath(stack[..n], hs[..n], top);
    ghost var h, under := hs[n], Rest(stack[..n], hs[..n]);
    OwesNext(r, h);
    key := r.node.keys[r.i];
    more, hs' := PushLater(stack[..n], r, hs[..n], h, top);
    ghost var later := Rest(more, hs');
    if r.node.children != [] {
      ghost var below := InOrder(r.node.children[r.i + 1]);
      more, hs' := DescendLeft(more, r.node.children[r.i + 1], hs', h - 1, top);
      FittingPath(more, hs', top);
      Regroup(key, below, Later(r), under);
    } else {
      Regroup(key, [], Later(r), under);
      assert [] + later == later;
    }
  }

  /** What the node of a resume point owes after its key and the subtree that follows. */
  function Later(r: Resume): seq<Key>
    requires r.i < |r.node.keys| && (r.node.children == [] || |r.node.children| == |r.node.keys| + 1)
  {
    if r.i + 1 < |r.node.keys| then Owes(Resume(r.node, r.i + 1)) else []
  }

  lemma {:induction false} Regroup(key: Key, below: seq<Key>, later: seq<Key>, under: seq<Key>)
    ensures [key] + (below + later) + under == [key] + (below + (later + under))
  {
  }

  method PushLater(stack: seq<Resume>, r: Resume, ghost hs: seq<nat>, ghost h: nat, ghost top: nat)
      returns (more: seq<Resume>, ghost hs': seq<nat>)
    requires Fitting(stack, hs, top) && Path(stack, hs) && h <= top && (hs != [] ==> h < hs[|hs| - 1])
    requires Ok(r.node, h, 0, MAX_KEYS) && r.i < |r.node.keys| && (r.node.children == [] || |r.node.children| == |r.node.keys| + 1)
    ensures Fitting(more, hs', top) && Path(more, hs') && Rest(more, hs') == Later(r) + Rest(stack, hs)
    ensures hs' != [] ==> h <= hs'[|hs'| - 1]
  {
    hide Fitting, Path, Rest, Owes, Ok;
    more, hs' := stack, hs;
    if r.i + 1 < |r.node.keys| {
      PushKeeps(more, hs', top, Resume(r.node, r.i + 1), h);
      more := Push(more, Resume(r.node, r.i + 1));
      hs' := hs' + [h];
      FittingPath(more, hs', top);
    } else {
      assert [] + Rest(stack, hs) == Rest(stack, hs);
    }
  }

  lemma {:induction false} RestIsOwed(stack: seq<Resume>, hs: seq<nat>)
    requires Path(stack, hs) && Rest(stack, hs) != []
    ensures stack != []
  {
  }

  /** Draining an iterator gives the keys that were still to come, in order. */
  method Drain(it: Iter) returns (out: seq<Key>)
    requires it.Valid()
    modifies it
    ensures out == old(it.Left()) && it.Valid() && it.Left() == []
  {
    hide Fitting, Path, Rest;
    ghost var all := it.Left();
    out := [];
    while it.remaining > 0
      invariant it.Valid() && all == out + it.Left()
      decreases |it.Left()|
    {
      ghost var left := it.Left();
      var k := it.Next();
      assert left == [left[0]] + left[1..];
      out := out + [k.value];
    }
    assert it.Left() == [];
  }

  /** iter_from: the keys of the tree from a rank on. */
  method Collect(root: Node, rank: nat, ghost h: nat) returns (out: seq<Key>)
    requires Ok(root, h, if h == 0 then 0 else 1, MAX_KEYS) && root.total < USIZE
    ensures out == if rank < |InOrder(root)| then InOrder(root)[rank..] else []
  {
    Lowered(root, h);
    hide InOrder, Ok, Stretch;
    var it := new Iter(root, rank, root.total, h);
    out := Drain(it);
    WholeStretch(InOrder(root), rank);
  }

  lemma {:induction false} WholeStretch(s: seq<Key>, rank: nat)
    ensures Stretch(s, rank, |s|) == if rank < |s| then s[rank..] else []
  {
  }

  /** range: exactly the keys inside the bounds, in order. */
  method CollectRange(root: Node, from: Bound, to: Bound, ghost h: nat) returns (out: seq<Key>)
    requires Ok(root, h, if h == 0 then 0 else 1, MAX_KEYS) && root.total < USIZE && Sorted(InOrder(root))
    ensures Sorted(out) && forall x :: x in out <==> x in InOrder(root) && AtLeast(x, from) && AtMost(x, to)
  {
    Lowered(root, h);
    hide InOrder, Ok;
    var lo, count := CountIn(root, from, to, h);
    var it := new Iter(root, lo, count, h);
    out := Drain(it);
    RangeIs(InOrder(root), lo, count, from, to);
  }

  lemma {:induction false} RangeIs(s: seq<Key>, lo: nat, count: nat, from: Bound, to: Bound)
    requires Sorted(s) && lo <= |s| && (count > 0 ==> lo + count <= |s|)
    requires forall i :: 0 <= i < |s| ==> (lo <= i < lo + count <==> AtLeast(s[i], from) && AtMost(s[i], to))
    ensures var out := Stretch(s, lo, count);
            Sorted(out) && forall x :: x in out <==> x in s && AtLeast(x, from) && AtMost(x, to)
  {
    hide AtLeast, AtMost;
    var out := Stretch(s, lo, count);
    assert out == if count == 0 then [] else s[lo..lo + count];
    forall x | x in s && AtLeast(x, from) && AtMost(x, to)
      ensures x in out
    {
      var i :| 0 <= i < |s| && s[i] == x;
      assert out[i - lo] == x;
    }
    forall x | x in out
      ensures x in s && AtLeast(x, from) && AtMost(x, to)
    {
      var j :| 0 <= j < |out| && out[j] == x;
      assert s[lo + j] == x;
    }
  }
}
