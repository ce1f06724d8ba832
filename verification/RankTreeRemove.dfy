/** Removal from the counted B-tree of crates/kevy-ranktree: fatten the child before descending into it. */
module RankTreeRemove {
  import opened Bytes
  import opened RankTree

  // --- Two neighbours and their separator ----------------------------------------------------

  /** Children i and i + 1 with the separator between them. */
  function Pair(left: Node, k: Key, right: Node): seq<Key> {
    InOrder(left) + [k] + InOrder(right)
  }

  lemma {:induction false} PairAt(cs: seq<Node>, ks: seq<Key>, i: nat)
    requires |cs| == |ks| + 1 && i < |ks|
    ensures Weave(cs, ks) == Before(cs, ks, i) + Pair(cs[i], ks[i], cs[i + 1]) + After(cs, ks, i + 1)
    ensures Before(cs, ks, i + 1) == Before(cs, ks, i) + InOrder(cs[i]) + [ks[i]]
  {
    hide Weave, InOrder;
    AtChild(cs, ks, i + 1);
    UpTo(cs, ks, i);
    var b, l, r, a := Before(cs, ks, i), InOrder(cs[i]), InOrder(cs[i + 1]), After(cs, ks, i + 1);
    assert b + l + [ks[i]] + r + a == b + (l + [ks[i]] + r) + a;
  }

  /** The node with new neighbours at i and i + 1 and a new separator. */
  function WithPair(n: Node, i: nat, left: Node, k: Key, right: Node): Node
    requires |n.children| == |n.keys| + 1 && i < |n.keys|
  {
    Node(n.keys[i := k], n.children[i := left][i + 1 := right], n.total)
  }

  lemma {:induction false} PairReplaced(n: Node, h: nat, lo: nat, i: nat, left: Node, k: Key, right: Node)
    requires Ok(n, h, lo, MAX_KEYS) && h > 0 && i < |n.keys|
    requires Ok(left, h - 1, MIN_KEYS, MAX_KEYS) && Ok(right, h - 1, MIN_KEYS, MAX_KEYS)
    ensures var m := WithPair(n, i, left, k, right);
            && InOrder(m) == Before(n.children, n.keys, i) + Pair(left, k, right) + After(n.children, n.keys, i + 1)
            && Before(m.children, m.keys, i) == Before(n.children, n.keys, i)
            && Before(m.children, m.keys, i + 1) == Before(n.children, n.keys, i) + InOrder(left) + [k]
            && (n.total == |InOrder(m)| ==> Ok(m, h, lo, MAX_KEYS))
  {
    hide Weave;
    var m := WithPair(n, i, left, k, right);
    PairAt(m.children, m.keys, i);
    assert m.children[..i] == n.children[..i] && m.children[i + 2..] == n.children[i + 2..];
    assert (i > 0 ==> m.keys[..i - 1] == n.keys[..i - 1]) && m.keys[i + 1..] == n.keys[i + 1..];
    assert i + 1 < |n.keys| ==> m.keys[i + 2..] == n.keys[i + 2..];
    assert AllOk(m.children, h - 1);
  }

  /** The node with the neighbours at i and i + 1 folded into one. */
  function Folded(n: Node, i: nat, one: Node): Node
    requires |n.children| == |n.keys| + 1 && i < |n.keys|
  {
    Node(n.keys[..i] + n.keys[i + 1..], n.children[..i] + [one] + n.children[i + 2..], n.total)
  }

  lemma {:induction false} PairFolded(n: Node, h: nat, lo: nat, i: nat, one: Node)
    requires Ok(n, h, lo, MAX_KEYS) && h > 0 && i < |n.keys| && lo >= 1
    requires Ok(one, h - 1, MIN_KEYS, MAX_KEYS) && InOrder(one) == Pair(n.children[i], n.keys[i], n.children[i + 1])
    ensures var m := Folded(n, i, one);
            && InOrder(m) == InOrder(n) && Ok(m, h, lo - 1, MAX_KEYS) && m.children[i] == one
            && Before(m.children, m.keys, i) == Before(n.children, n.keys, i)
  {
    hide Weave;
    var m := Folded(n, i, one);
    PairAt(n.children, n.keys, i);
    AtChild(m.children, m.keys, i);
    assert m.children[..i] == n.children[..i] && m.children[i + 1..] == n.children[i + 2..];
    assert (i > 0 ==> m.keys[..i - 1] == n.keys[..i - 1]) && m.keys[i..] == n.keys[i + 1..];
    assert i + 1 < |n.keys| ==> m.keys[i + 1..] == n.keys[i + 2..] && m.keys[i] == n.keys[i + 1];
    assert After(m.children, m.keys, i) == After(n.children, n.keys, i + 1);
    assert AllOk(m.children, h - 1);
  }

  // --- Borrowing and merging ---------------------------------------------------------------------

  /** borrow_from_left: the left sibling's last key goes up, the separator comes down, and no key changes place. */
  method BorrowFromLeft(left: Node, k: Key, right: Node, ghost h: nat) returns (l: Node, up: Key, r: Node)
    requires Ok(left, h, MIN_KEYS + 1, MAX_KEYS) && Ok(right, h, MIN_KEYS, MIN_KEYS)
    ensures Pair(l, up, r) == Pair(left, k, right) && |InOrder(l)| <= |InOrder(left)|
    ensures Ok(l, h, MIN_KEYS, MAX_KEYS) && Ok(r, h, MIN_KEYS + 1, MAX_KEYS)
  {
    hide Weave;
    var n := |left.keys| - 1;
    up := left.keys[n];
    if left.children == [] {
      l, r := Counted(left.keys[..n], []), Counted([k] + right.keys, []);
      assert left.keys == left.keys[..n] + [up];
    } else {
      var moved := left.children[n + 1];
      l, r := Counted(left.keys[..n], left.children[..n + 1]), Counted([k] + right.keys, [moved] + right.children);
      TakenFromEnd(left.children, left.keys);
      AddedAtFront(moved, k, right.children, right.keys);
      assert Ok(moved, h - 1, MIN_KEYS, MAX_KEYS);
    }
    CountedIsOk(l.keys, l.children, h, MIN_KEYS, MAX_KEYS);
    CountedIsOk(r.keys, r.children, h, MIN_KEYS + 1, MAX_KEYS);
  }

  /** borrow_from_right: the mirror. */
  method BorrowFromRight(left: Node, k: Key, right: Node, ghost h: nat) returns (l: Node, up: Key, r: Node)
    requires Ok(left, h, MIN_KEYS, MIN_KEYS) && Ok(right, h, MIN_KEYS + 1, MAX_KEYS)
    ensures Pair(l, up, r) == Pair(left, k, right) && |InOrder(l)| >= |InOrder(left)|
    ensures Ok(l, h, MIN_KEYS + 1, MAX_KEYS) && Ok(r, h, MIN_KEYS, MAX_KEYS)
  {
    hide Weave;
    up := right.keys[0];
    if right.children == [] {
      l, r := Counted(left.keys + [k], []), Counted(right.keys[1..], []);
      assert right.keys == [up] + right.keys[1..];
    } else {
      var moved := right.children[0];
      l, r := Counted(left.keys + [k], left.children + [moved]), Counted(right.keys[1..], right.children[1..]);
      AddedAtEnd(left.children, left.keys, k, moved);
      TakenFromFront(right.children, right.keys);
      assert Ok(moved, h - 1, MIN_KEYS, MAX_KEYS);
    }
    CountedIsOk(l.keys, l.children, h, MIN_KEYS + 1, MAX_KEYS);
    CountedIsOk(r.keys, r.children, h, MIN_KEYS, MAX_KEYS);
  }

  /** merge_children: two minimal neighbours and their separator make one full node. */
  method MergeChildren(left: Node, k: Key, right: Node, ghost h: nat) returns (one: Node)
    requires Ok(left, h, MIN_KEYS, MIN_KEYS) && Ok(right, h, MIN_KEYS, MIN_KEYS)
    ensures InOrder(one) == Pair(left, k, right) && Ok(one, h, MIN_KEYS + 1, MAX_KEYS)
  {
    hide Weave;
    one := Counted(left.keys + [k] + right.keys, left.children + right.children);
    CountedIsOk(one.keys, one.children, h, MIN_KEYS + 1, MAX_KEYS);
    if h > 0 {
      var n := |left.keys|;
      WeaveCut(one.children, one.keys, n);
      assert one.children[..n + 1] == left.children && one.keys[..n] == left.keys;
      assert one.children[n + 1..] == right.children && one.keys[n + 1..] == right.keys;
    }
  }

  lemma {:induction false} TakenFromEnd(cs: seq<Node>, ks: seq<Key>)
    requires |cs| == |ks| + 1 && ks != []
    ensures var n := |ks| - 1; Weave(cs, ks) == Weave(cs[..n + 1], ks[..n]) + [ks[n]] + InOrder(cs[n + 1])
  {
    hide InOrder;
    var n := |ks| - 1;
    WeaveCut(cs, ks, n);
    assert cs[n + 1..] == [cs[n + 1]] && ks[n + 1..] == [];
  }

  lemma {:induction false} TakenFromFront(cs: seq<Node>, ks: seq<Key>)
    requires |cs| == |ks| + 1 && ks != []
    ensures Weave(cs, ks) == InOrder(cs[0]) + [ks[0]] + Weave(cs[1..], ks[1..])
  {
  }

  lemma {:induction false} AddedAtFront(c: Node, k: Key, cs: seq<Node>, ks: seq<Key>)
    requires |cs| == |ks| + 1
    ensures Weave([c] + cs, [k] + ks) == InOrder(c) + [k] + Weave(cs, ks)
  {
    hide InOrder;
    assert ([c] + cs)[1..] == cs && ([k] + ks)[1..] == ks;
  }

  lemma {:induction false} AddedAtEnd(cs: seq<Node>, ks: seq<Key>, k: Key, c: Node)
    requires |cs| == |ks| + 1
    ensures Weave(cs + [c], ks + [k]) == Weave(cs, ks) + [k] + InOrder(c)
  {
    hide InOrder;
    TakenFromEnd(cs + [c], ks + [k]);
    assert (cs + [c])[..|cs|] == cs && (ks + [k])[..|ks|] == ks;
  }

  // --- fatten_child -----------------------------------------------------------------------------------

  /** Child j of m reaches at least as far, on both sides, as child i of n. */
  ghost predicate Covers(m: Node, j: nat, n: Node, i: nat)
    requires |m.children| == |m.keys| + 1 && j < |m.children| && |n.children| == |n.keys| + 1 && i < |n.children|
  {
    && |Before(m.children, m.keys, j)| <= |Before(n.children, n.keys, i)|
    && |Before(m.children, m.keys, j)| + |InOrder(m.children[j])| >= |Before(n.children, n.keys, i)| + |InOrder(n.children[i])|
  }

  /** fatten_child: the same keys in the same order, and a child to descend into that can spare one and covers the old one. */
  method FattenChild(n: Node, i: nat, ghost h: nat, ghost lo: nat) returns (m: Node, j: nat)
    requires Ok(n, h, lo, MAX_KEYS) && h > 0 && lo >= 1 && i < |n.children|
    ensures InOrder(m) == InOrder(n) && Ok(m, h, lo - 1, MAX_KEYS) && m.total == n.total
    ensures j < |m.children| && Ok(m.children[j], h - 1, MIN_KEYS + 1, MAX_KEYS) && Covers(m, j, n, i)
    ensures (i == 0 ==> j == 0) && (i == |n.children| - 1 ==> j == |m.children| - 1)
  {
    hide Weave, InOrder, Before, After;
    ChildOk(n, h, lo, i);
    if i > 0 {
      ChildOk(n, h, lo, i - 1);
    }
    if i + 1 < |n.children| {
      ChildOk(n, h, lo, i + 1);
    }
    if |n.children[i].keys| > MIN_KEYS {
      Weaker(n, h, lo);
      return n, i;
    }
    if i > 0 && |n.children[i - 1].keys| > MIN_KEYS {
      m := FattenFromLeft(n, i, h, lo);
      return m, i;
    } else if i + 1 < |n.children| && |n.children[i + 1].keys| > MIN_KEYS {
      m := FattenFromRight(n, i, h, lo);
      return m, i;
    } else if i > 0 {
      m := Fold(n, i - 1, h, lo);
      return m, i - 1;
    } else {
      m := Fold(n, i, h, lo);
      return m, i;
    }
  }

  /** A child, with what its number of keys says. */
  lemma {:induction false} ChildOk(n: Node, h: nat, lo: nat, i: nat)
    requires Ok(n, h, lo, MAX_KEYS) && h > 0 && i < |n.children|
    ensures var c := n.children[i]; Ok(c, h - 1, if |c.keys| > MIN_KEYS then MIN_KEYS + 1 else MIN_KEYS, if |c.keys| > MIN_KEYS then MAX_KEYS else MIN_KEYS)
    ensures Ok(n.children[i], h - 1, MIN_KEYS, MAX_KEYS)
  {
    assert Ok(n.children[i], h - 1, MIN_KEYS, MAX_KEYS);
  }

  lemma {:induction false} Weaker(n: Node, h: nat, lo: nat)
    requires Ok(n, h, lo, MAX_KEYS) && lo >= 1
    ensures Ok(n, h, lo - 1, MAX_KEYS)
  {
  }

  method FattenFromLeft(n: Node, i: nat, ghost h: nat, ghost lo: nat) returns (m: Node)
    requires Ok(n, h, lo, MAX_KEYS) && h > 0 && lo >= 1 && 0 < i < |n.children|
    requires Ok(n.children[i], h - 1, MIN_KEYS, MIN_KEYS) && Ok(n.children[i - 1], h - 1, MIN_KEYS + 1, MAX_KEYS)
    ensures InOrder(m) == InOrder(n) && Ok(m, h, lo - 1, MAX_KEYS) && m.total == n.total && |m.children| == |n.children|
    ensures Ok(m.children[i], h - 1, MIN_KEYS + 1, MAX_KEYS) && Covers(m, i, n, i)
  {
    hide Weave;
    var l, up, r := BorrowFromLeft(n.children[i - 1], n.keys[i - 1], n.children[i], h - 1);
    m := WithPair(n, i - 1, l, up, r);
    PairAt(n.children, n.keys, i - 1);
    PairReplaced(n, h, lo, i - 1, l, up, r);
    Weaker(m, h, lo);
  }

  method FattenFromRight(n: Node, i: nat, ghost h: nat, ghost lo: nat) returns (m: Node)
    requires Ok(n, h, lo, MAX_KEYS) && h > 0 && lo >= 1 && i + 1 < |n.children|
    requires Ok(n.children[i], h - 1, MIN_KEYS, MIN_KEYS) && Ok(n.children[i + 1], h - 1, MIN_KEYS + 1, MAX_KEYS)
    ensures InOrder(m) == InOrder(n) && Ok(m, h, lo - 1, MAX_KEYS) && m.total == n.total && |m.children| == |n.children|
    ensures Ok(m.children[i], h - 1, MIN_KEYS + 1, MAX_KEYS) && Covers(m, i, n, i)
  {
    hide Weave;
    var l, up, r := BorrowFromRight(n.children[i], n.keys[i], n.children[i + 1], h - 1);
    m := WithPair(n, i, l, up, r);
    PairAt(n.children, n.keys, i);
    PairReplaced(n, h, lo, i, l, up, r);
    Weaker(m, h, lo);
  }

  method Fold(n: Node, i: nat, ghost h: nat, ghost lo: nat) returns (m: Node)
    requires Ok(n, h, lo, MAX_KEYS) && h > 0 && lo >= 1 && i < |n.keys|
    requires Ok(n.children[i], h - 1, MIN_KEYS, MIN_KEYS) && Ok(n.children[i + 1], h - 1, MIN_KEYS, MIN_KEYS)
    ensures InOrder(m) == InOrder(n) && Ok(m, h, lo - 1, MAX_KEYS) && m.total == n.total && |m.children| == |n.children| - 1
    ensures Ok(m.children[i], h - 1, MIN_KEYS + 1, MAX_KEYS) && Covers(m, i, n, i) && Covers(m, i, n, i + 1)
    ensures InOrder(m.children[i]) == Pair(n.children[i], n.keys[i], n.children[i + 1])
  {
    hide Weave;
    var one := MergeChildren(n.children[i], n.keys[i], n.children[i + 1], h - 1);
    m := Folded(n, i, one);
    PairAt(n.children, n.keys, i);
    PairFolded(n, h, lo, i, one);
  }

  // --- Removal ---------------------------------------------------------------------------------------

  lemma {:induction false} LastChild(n: Node, h: nat, lo: nat)
    requires Ok(n, h, lo, MAX_KEYS) && h > 0
    ensures After(n.children, n.keys, |n.keys|) == [] && Before(n.children, n.keys, 0) == []
  {
  }

  /** remove_max: the subtree without its last key, and that key. */
  method RemoveMax(n: Node, ghost h: nat) returns (m: Node, k: Key)
    requires Ok(n, h, MIN_KEYS + 1, MAX_KEYS)
    ensures InOrder(m) + [k] == InOrder(n) && Ok(m, h, MIN_KEYS, MAX_KEYS)
    decreases h
  {
    hide Weave, InOrder, Before, After;
    if n.children == [] {
      LeafIs(n, h, MIN_KEYS + 1, MAX_KEYS);
      var last := |n.keys| - 1;
      m, k := Node(n.keys[..last], [], n.total - 1), n.keys[last];
      PlainLeaf(m);
      assert n.keys[..last] + [k] == n.keys;
      return;
    }
    InnerIs(n, h, MIN_KEYS + 1, MAX_KEYS);
    var f, j := FattenChild(n, |n.children| - 1, h, MIN_KEYS + 1);
    var c;
    c, k := RemoveMax(f.children[j], h - 1);
    LastChild(f, h, MIN_KEYS);
    WholeAt(f, h, MIN_KEYS, j);
    m := Node(f.keys, f.children[j := c], n.total - 1);
    ReplaceChild(f, h, MIN_KEYS, j, m);
    ghost var b := Before(f.children, f.keys, j);
    assert b + InOrder(c) + [] + [k] == b + (InOrder(c) + [k]) + [];
  }

  /** remove_min: the mirror. */
  method RemoveMin(n: Node, ghost h: nat) returns (m: Node, k: Key)
    requires Ok(n, h, MIN_KEYS + 1, MAX_KEYS)
    ensures [k] + InOrder(m) == InOrder(n) && Ok(m, h, MIN_KEYS, MAX_KEYS)
    decreases h
  {
    hide Weave, InOrder, Before, After;
    if n.children == [] {
      LeafIs(n, h, MIN_KEYS + 1, MAX_KEYS);
      m, k := Node(n.keys[1..], [], n.total - 1), n.keys[0];
      PlainLeaf(m);
      assert [k] + n.keys[1..] == n.keys;
      return;
    }
    InnerIs(n, h, MIN_KEYS + 1, MAX_KEYS);
    var f, j := FattenChild(n, 0, h, MIN_KEYS + 1);
    var c;
    c, k := RemoveMin(f.children[j], h - 1);
    LastChild(f, h, MIN_KEYS);
    WholeAt(f, h, MIN_KEYS, j);
    m := Node(f.keys, f.children[j := c], n.total - 1);
    ReplaceChild(f, h, MIN_KEYS, j, m);
    ghost var a := After(f.children, f.keys, j);
    assert [k] + ([] + InOrder(c) + a) == [] + ([k] + InOrder(c)) + a;
  }

  lemma {:induction false} WholeAt(n: Node, h: nat, lo: nat, i: nat)
    requires Ok(n, h, lo, MAX_KEYS) && h > 0 && i < |n.children|
    ensures InOrder(n) == Before(n.children, n.keys, i) + InOrder(n.children[i]) + After(n.children, n.keys, i)
  {
    hide Weave;
    AtChild(n.children, n.keys, i);
  }

  lemma {:induction false} FitsNarrow(b: seq<Key>, c: seq<Key>, a: seq<Key>, b': seq<Key>, c': seq<Key>, a': seq<Key>, k: Key)
    requires b + c + a == b' + c' + a' && |b'| <= |b| && |b'| + |c'| >= |b| + |c| && Fits(b, k, a)
    ensures Fits(b', k, a')
  {
    var s, t := b + c + a, b' + c' + a';
    forall i | 0 <= i < |b'|
      ensures b'[i] < k
    {
      assert b'[i] == t[i] == s[i] == b[i];
    }
    forall i | 0 <= i < |a'|
      ensures a'[i] > k
    {
      var x := |b'| + |c'| + i;
      assert a'[i] == t[x] == s[x] == a[x - |b| - |c|];
    }
  }

  lemma {:induction false} FitsAround(b: seq<Key>, c: seq<Key>, a: seq<Key>, k: Key)
    requires Sorted(b + c + a) && k in c
    ensures Fits(b, k, a)
  {
    var s := b + c + a;
    var x :| 0 <= x < |c| && c[x] == k;
    assert s[|b| + x] == k;
    forall i | 0 <= i < |b|
      ensures b[i] < k
    {
      assert s[i] == b[i];
    }
    forall i | 0 <= i < |a|
      ensures a[i] > k
    {
      assert s[|b| + |c| + i] == a[i];
    }
  }

  lemma {:induction false} WithoutAt(x: seq<Key>, k: Key, y: seq<Key>)
    requires Sorted(x + [k] + y)
    ensures Without(x + [k] + y, k) == x + y && k in x + [k] + y
  {
    var s := x + [k] + y;
    assert s[|x|] == k;
    BoundIs(s, k, |x|);
    hide LowerBound;
    assert s[..|x|] == x && s[|x| + 1..] == y;
  }

  /** Taking k out of the child that covers its place is taking it out of the whole. */
  lemma {:induction false} WithoutThrough(n: Node, h: nat, lo: nat, j: nat, k: Key)
    requires Ok(n, h, lo, MAX_KEYS) && h > 0 && j < |n.children| && Sorted(InOrder(n))
    requires Fits(Before(n.children, n.keys, j), k, After(n.children, n.keys, j))
    ensures var b, c, a := Before(n.children, n.keys, j), InOrder(n.children[j]), After(n.children, n.keys, j);
            && Sorted(c) && (k in InOrder(n) <==> k in c)
            && Without(InOrder(n), k) == b + Without(c, k) + a
            && |Without(InOrder(n), k)| == |InOrder(n)| - if k in c then 1 else 0
  {
    hide InOrder, Before, After, Without, LowerBound;
    WholeAt(n, h, lo, j);
    var b, c, a := Before(n.children, n.keys, j), InOrder(n.children[j]), After(n.children, n.keys, j);
    SortedParts(b, c, a);
    BoundInMiddle(b, c, a, k);
    WithInMiddle(b, c, a, k);
    WithLength(InOrder(n), k);
  }

  /** remove_rec: exactly k is gone, and it says whether k was there. */
  method RemoveRec(n: Node, k: Key, ghost h: nat, ghost lo: nat) returns (m: Node, removed: bool)
    requires Ok(n, h, lo, MAX_KEYS) && Sorted(InOrder(n)) && (h > 0 ==> lo >= 1)
    ensures removed <==> k in InOrder(n)
    ensures InOrder(m) == Without(InOrder(n), k)
    ensures Ok(m, h, if lo == 0 then 0 else lo - 1, MAX_KEYS)
    decreases h, 1
  {
    hide Weave, InOrder, Before, After, Without;
    var i := LowerBound(n.keys, k);
    var hit := i < |n.keys| && n.keys[i] == k;
    if n.children == [] {
      LeafIs(n, h, lo, MAX_KEYS);
      SortedBound(n.keys, k);
      Unfolded(n.keys, k);
      if !hit {
        Lower(n, h, lo);
        return n, false;
      }
      m := Node(n.keys[..i] + n.keys[i + 1..], [], n.total - 1);
      PlainLeaf(m);
      return m, true;
    }
    InnerIs(n, h, lo, MAX_KEYS);
    if hit {
      m := RemoveHit(n, k, i, h, lo);
      SeparatorIsThere(n, h, lo, MAX_KEYS, i);
      return m, true;
    }
    m, removed := RemoveBelow(n, k, i, h, lo);
  }

  lemma {:induction false} Lower(n: Node, h: nat, lo: nat)
    requires Ok(n, h, lo, MAX_KEYS)
    ensures Ok(n, h, if lo == 0 then 0 else lo - 1, MAX_KEYS)
  {
  }

  /** The key is no separator here: fatten the child on the way and go down. */
  method RemoveBelow(n: Node, k: Key, i: nat, ghost h: nat, ghost lo: nat) returns (m: Node, removed: bool)
    requires Ok(n, h, lo, MAX_KEYS) && Sorted(InOrder(n)) && h > 0 && lo >= 1
    requires i == LowerBound(n.keys, k) && !Found(n.keys, k)
    ensures removed <==> k in InOrder(n)
    ensures InOrder(m) == Without(InOrder(n), k) && Ok(m, h, lo - 1, MAX_KEYS)
    decreases h, 0
  {
    UnderChild(n, h, lo, MAX_KEYS, k);
    hide Weave, InOrder, Before, After, Without, LowerBound, Found;
    var f, j := FattenChild(n, i, h, lo);
    WholeAt(f, h, lo - 1, j);
    FitsNarrow(Before(n.children, n.keys, i), InOrder(n.children[i]), After(n.children, n.keys, i),
               Before(f.children, f.keys, j), InOrder(f.children[j]), After(f.children, f.keys, j), k);
    WithoutThrough(f, h, lo - 1, j, k);
    var c;
    c, removed := RemoveRec(f.children[j], k, h - 1, MIN_KEYS + 1);
    m := Node(f.keys, f.children[j := c], if removed then f.total - 1 else f.total);
    ReplaceChild(f, h, lo - 1, j, m);
  }

  /** remove_hit_in_internal: the separator itself goes. */
  method RemoveHit(n: Node, k: Key, i: nat, ghost h: nat, ghost lo: nat) returns (m: Node)
    requires Ok(n, h, lo, MAX_KEYS) && Sorted(InOrder(n)) && h > 0 && lo >= 1
    requires i < |n.keys| && n.keys[i] == k
    ensures InOrder(m) == Without(InOrder(n), k) && Ok(m, h, lo - 1, MAX_KEYS)
    decreases h, 0
  {
    hide Weave, InOrder, Before, After, Without;
    ChildOk(n, h, lo, i);
    ChildOk(n, h, lo, i + 1);
    ghost var b, a := Before(n.children, n.keys, i), After(n.children, n.keys, i + 1);
    ghost var l, r := InOrder(n.children[i]), InOrder(n.children[i + 1]);
    HitParts(n, h, lo, k, i);
    if |n.children[i].keys| > MIN_KEYS {
      var c, pred := RemoveMax(n.children[i], h - 1);
      m := WithPair(n, i, c, pred, n.children[i + 1]).(total := n.total - 1);
      Recounted(n, h, lo, i, c, pred, n.children[i + 1], m);
      assert b + (InOrder(c) + [pred] + r) + a == b + (l + r) + a;
    } else if |n.children[i + 1].keys| > MIN_KEYS {
      var c, succ := RemoveMin(n.children[i + 1], h - 1);
      m := WithPair(n, i, n.children[i], succ, c).(total := n.total - 1);
      Recounted(n, h, lo, i, n.children[i], succ, c, m);
      assert l + [succ] + InOrder(c) == l + ([succ] + InOrder(c));
    } else {
      var f := Fold(n, i, h, lo);
      FoldedHit(f, h, lo - 1, i, l, k, r);
      WithoutThrough(f, h, lo - 1, i, k);
      var c, removed := RemoveRec(f.children[i], k, h - 1, MIN_KEYS + 1);
      m := Node(f.keys, f.children[i := c], f.total - if removed then 1 else 0);
      ReplaceChild(f, h, lo - 1, i, m);
    }
  }

  /** The keys around a separator, with and without it. */
  lemma {:induction false} HitParts(n: Node, h: nat, lo: nat, k: Key, i: nat)
    requires Ok(n, h, lo, MAX_KEYS) && Sorted(InOrder(n)) && h > 0 && i < |n.keys| && n.keys[i] == k
    ensures var b, a := Before(n.children, n.keys, i), After(n.children, n.keys, i + 1);
            var l, r := InOrder(n.children[i]), InOrder(n.children[i + 1]);
            && InOrder(n) == b + (l + [k] + r) + a
            && Without(InOrder(n), k) == b + (l + r) + a && |InOrder(n)| == |b + (l + r) + a| + 1
  {
    hide Weave, Before, After, Without;
    PairAt(n.children, n.keys, i);
    var b, a := Before(n.children, n.keys, i), After(n.children, n.keys, i + 1);
    var l, r := InOrder(n.children[i]), InOrder(n.children[i + 1]);
    assert b + (l + [k] + r) + a == (b + l) + [k] + (r + a);
    WithoutAt(b + l, k, r + a);
    assert (b + l) + (r + a) == b + (l + r) + a;
  }

  lemma {:induction false} Recounted(n: Node, h: nat, lo: nat, i: nat, left: Node, k: Key, right: Node, m: Node)
    requires Ok(n, h, lo, MAX_KEYS) && h > 0 && lo >= 1 && i < |n.keys|
    requires Ok(left, h - 1, MIN_KEYS, MAX_KEYS) && Ok(right, h - 1, MIN_KEYS, MAX_KEYS)
    requires m == WithPair(n, i, left, k, right).(total := m.total)
    ensures InOrder(m) == Before(n.children, n.keys, i) + Pair(left, k, right) + After(n.children, n.keys, i + 1)
    ensures m.total == |InOrder(m)| ==> Ok(m, h, lo - 1, MAX_KEYS)
  {
    hide Weave, Before, After;
    PairReplaced(n, h, lo, i, left, k, right);
    SameKeys(m, WithPair(n, i, left, k, right));
    assert AllOk(m.children, h - 1);
  }

  lemma {:induction false} SameKeys(m: Node, n: Node)
    requires m.keys == n.keys && m.children == n.children
    ensures InOrder(m) == InOrder(n)
  {
  }

  lemma {:induction false} FoldedHit(f: Node, h: nat, lo: nat, i: nat, l: seq<Key>, k: Key, r: seq<Key>)
    requires Ok(f, h, lo, MAX_KEYS) && h > 0 && i < |f.children| && Sorted(InOrder(f))
    requires InOrder(f.children[i]) == l + [k] + r
    ensures Fits(Before(f.children, f.keys, i), k, After(f.children, f.keys, i)) && k in InOrder(f.children[i])
  {
    hide Weave, InOrder, Before, After;
    WholeAt(f, h, lo, i);
    assert (l + [k] + r)[|l|] == k;
    FitsAround(Before(f.children, f.keys, i), InOrder(f.children[i]), After(f.children, f.keys, i), k);
  }
}
