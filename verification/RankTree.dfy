/**
 The counted B-tree of crates/kevy-ranktree, on node values: its shape, the order its keys come in,
 and insertion. Keys keep only their order.
 */
module RankTree {
  import opened Bytes

  type Key = int

  const MAX_KEYS: nat := 15
  const MIN_KEYS: nat := 7

  datatype Node = Node(keys: seq<Key>, children: seq<Node>, total: nat)

  // --- The keys of a subtree, in order -----------------------------------------------------

  function InOrder(n: Node): seq<Key>
    decreases n, 1
  {
    if n.children == [] || |n.children| != |n.keys| + 1 then n.keys else Weave(n.children, n.keys)
  }

  /** Children with their separators between them. */
  function Weave(cs: seq<Node>, ks: seq<Key>): seq<Key>
    requires |cs| == |ks| + 1
    decreases cs, 0
  {
    if ks == [] then InOrder(cs[0]) else InOrder(cs[0]) + [ks[0]] + Weave(cs[1..], ks[1..])
  }

  /** Cutting at a separator. */
  lemma {:induction false} WeaveCut(cs: seq<Node>, ks: seq<Key>, i: nat)
    requires |cs| == |ks| + 1 && i < |ks|
    ensures Weave(cs, ks) == Weave(cs[..i + 1], ks[..i]) + [ks[i]] + Weave(cs[i + 1..], ks[i + 1..])
    decreases i
  {
    hide InOrder;
    if i == 0 {
      assert cs[..1][0] == cs[0] && ks[..0] == [];
    } else {
      WeaveCut(cs[1..], ks[1..], i - 1);
      var front, rear := Weave(cs[..i + 1], ks[..i]), Weave(cs[i + 1..], ks[i + 1..]);
      assert cs[..i + 1][1..] == cs[1..][..i] && ks[..i][1..] == ks[1..][..i - 1];
      assert cs[1..][i..] == cs[i + 1..] && ks[1..][i..] == ks[i + 1..];
      var tail := Weave(cs[1..][..i], ks[1..][..i - 1]);
      assert front == InOrder(cs[0]) + [ks[0]] + tail;
      assert InOrder(cs[0]) + [ks[0]] + (tail + [ks[i]] + rear) == front + [ks[i]] + rear;
    }
  }

  /** What comes before child i, and what comes after it. */
  function Before(cs: seq<Node>, ks: seq<Key>, i: nat): seq<Key>
    requires |cs| == |ks| + 1 && i < |cs|
  {
    if i == 0 then [] else Weave(cs[..i], ks[..i - 1]) + [ks[i - 1]]
  }

  function After(cs: seq<Node>, ks: seq<Key>, i: nat): seq<Key>
    requires |cs| == |ks| + 1 && i < |cs|
  {
    if i == |ks| then [] else [ks[i]] + Weave(cs[i + 1..], ks[i + 1..])
  }

  lemma {:induction false} AtChild(cs: seq<Node>, ks: seq<Key>, i: nat)
    requires |cs| == |ks| + 1 && i < |cs|
    ensures Weave(cs, ks) == Before(cs, ks, i) + InOrder(cs[i]) + After(cs, ks, i)
  {
    hide InOrder;
    var rear := if i == |ks| then [] else [ks[i]] + Weave(cs[i + 1..], ks[i + 1..]);
    if i < |ks| {
      WeaveCut(cs, ks, i);
    } else {
      assert cs[..i + 1] == cs && ks[..i] == ks;
    }
    UpTo(cs, ks, i);
    assert Weave(cs, ks) == Weave(cs[..i + 1], ks[..i]) + rear;
  }

  lemma {:induction false} UpTo(cs: seq<Node>, ks: seq<Key>, i: nat)
    requires |cs| == |ks| + 1 && i < |cs|
    ensures Weave(cs[..i + 1], ks[..i]) == Before(cs, ks, i) + InOrder(cs[i])
  {
    hide InOrder;
    var c, k := cs[..i + 1], ks[..i];
    if i == 0 {
      assert Weave(c, k) == InOrder(cs[0]);
    } else {
      WeaveCut(c, k, i - 1);
      assert c[..i] == cs[..i] && k[..i - 1] == ks[..i - 1] && c[i..] == [cs[i]] && k[i..] == [];
      assert Weave([cs[i]], []) == InOrder(cs[i]);
    }
  }

  // --- The shape of a tree ---------------------------------------------------------------------

  /** Equal depth, lo to hi keys here and a half-full node to a full one below, and the count of every subtree. */
  ghost predicate Ok(n: Node, h: nat, lo: nat, hi: nat)
    decreases h, 0
  {
    && lo <= |n.keys| <= hi && n.total == |InOrder(n)|
    && if h == 0 then n.children == []
       else |n.children| == |n.keys| + 1 && AllOk(n.children, h - 1)
  }

  ghost predicate AllOk(cs: seq<Node>, h: nat)
    decreases h, 1
  {
    forall i :: 0 <= i < |cs| ==> Ok(cs[i], h, MIN_KEYS, MAX_KEYS)
  }

  function Totals(cs: seq<Node>): nat {
    if cs == [] then 0 else cs[0].total + Totals(cs[1..])
  }

  /** recount: a node's count is its keys and its children's counts. */
  function Counted(keys: seq<Key>, children: seq<Node>): Node {
    Node(keys, children, |keys| + Totals(children))
  }

  lemma {:induction false} WeaveLength(cs: seq<Node>, ks: seq<Key>, h: nat)
    requires |cs| == |ks| + 1 && AllOk(cs, h)
    ensures |Weave(cs, ks)| == |ks| + Totals(cs)
    decreases |ks|
  {
    hide InOrder;
    assert Ok(cs[0], h, MIN_KEYS, MAX_KEYS);
    if ks == [] {
      assert cs[1..] == [];
    } else {
      WeaveLength(cs[1..], ks[1..], h);
    }
  }

  /** A recounted node over good children is good. */
  lemma {:induction false} CountedIsOk(keys: seq<Key>, children: seq<Node>, h: nat, lo: nat, hi: nat)
    requires lo <= |keys| <= hi
    requires if h == 0 then children == [] else |children| == |keys| + 1 && AllOk(children, h - 1)
    ensures Ok(Counted(keys, children), h, lo, hi)
    ensures InOrder(Counted(keys, children)) == if h == 0 then keys else Weave(children, keys)
  {
    if h > 0 {
      WeaveLength(children, keys, h - 1);
    }
  }

  // --- Sorted sequences ---------------------------------------------------------------------------

  predicate Sorted(s: seq<Key>) {
    forall i, j :: 0 <= i < j < |s| ==> s[i] < s[j]
  }

  /** How many leading keys are below k: where binary_search finds k or would put it. */
  function LowerBound(s: seq<Key>, k: Key): (i: nat)
    ensures i <= |s| && (forall j :: 0 <= j < i ==> s[j] < k) && (i < |s| ==> s[i] >= k)
  {
    if s == [] || s[0] >= k then 0 else 1 + LowerBound(s[1..], k)
  }

  predicate Found(s: seq<Key>, k: Key) {
    LowerBound(s, k) < |s| && s[LowerBound(s, k)] == k
  }

  function PutAt(s: seq<Key>, p: nat, k: Key): seq<Key>
    requires p <= |s|
  {
    s[..p] + [k] + s[p..]
  }

  function TakeAt(s: seq<Key>, p: nat): seq<Key>
    requires p < |s|
  {
    s[..p] + s[p + 1..]
  }

  /** The reference: a sorted vector with k put in its place, and with k taken out. */
  function With(s: seq<Key>, k: Key): seq<Key> {
    if Found(s, k) then s else PutAt(s, LowerBound(s, k), k)
  }

  function Without(s: seq<Key>, k: Key): seq<Key> {
    if Found(s, k) then TakeAt(s, LowerBound(s, k)) else s
  }

  lemma {:induction false} BoundIs(s: seq<Key>, k: Key, i: nat)
    requires i <= |s| && (forall j :: 0 <= j < i ==> s[j] < k) && (forall j :: i <= j < |s| ==> s[j] >= k)
    ensures LowerBound(s, k) == i
  {
    hide LowerBound;
    var j := LowerBound(s, k);
    if i < |s| {
      assert s[i] >= k;
    }
    assert !(j < i) && !(i < j);
  }

  lemma {:induction false} SortedBound(s: seq<Key>, k: Key)
    requires Sorted(s)
    ensures forall j :: LowerBound(s, k) <= j < |s| ==> s[j] >= k
    ensures Found(s, k) <==> k in s
  {
  }

  /** k belongs in the middle of three parts. */
  ghost predicate Fits(b: seq<Key>, k: Key, a: seq<Key>) {
    (forall i :: 0 <= i < |b| ==> b[i] < k) && (forall i :: 0 <= i < |a| ==> a[i] > k)
  }

  lemma {:induction false} SortedParts(b: seq<Key>, c: seq<Key>, a: seq<Key>)
    requires Sorted(b + c + a)
    ensures Sorted(b) && Sorted(c) && Sorted(a)
  {
    var s := b + c + a;
    assert forall i :: 0 <= i < |b| ==> s[i] == b[i];
    assert forall i :: 0 <= i < |c| ==> s[|b| + i] == c[i];
    assert forall i :: 0 <= i < |a| ==> s[|b| + |c| + i] == a[i];
  }

  lemma {:induction false} BoundInMiddle(b: seq<Key>, c: seq<Key>, a: seq<Key>, k: Key)
    requires Sorted(b + c + a) && Fits(b, k, a)
    ensures LowerBound(b + c + a, k) == |b| + LowerBound(c, k)
    ensures Found(b + c + a, k) <==> Found(c, k)
    ensures k in b + c + a <==> k in c
  {
    SortedParts(b, c, a);
    SortedBound(c, k);
    var s, p := b + c + a, LowerBound(c, k);
    forall j | 0 <= j < |b| + p
      ensures s[j] < k
    {
      if j >= |b| {
        assert s[j] == c[j - |b|];
      }
    }
    forall j | |b| + p <= j < |s|
      ensures s[j] >= k
    {
      if j < |b| + |c| {
        assert s[j] == c[j - |b|];
      } else {
        assert s[j] == a[j - |b| - |c|];
      }
    }
    BoundIs(s, k, |b| + p);
    if p == |c| && a != [] {
      assert s[|b| + p] == a[0];
    }
  }

  /** Changing the middle is changing the whole. */
  lemma {:induction false} WithInMiddle(b: seq<Key>, c: seq<Key>, a: seq<Key>, k: Key)
    requires Sorted(b + c + a) && Fits(b, k, a)
    ensures With(b + c + a, k) == b + With(c, k) + a
    ensures Without(b + c + a, k) == b + Without(c, k) + a
  {
    BoundInMiddle(b, c, a, k);
    hide *;
    var s, p, q := b + c + a, LowerBound(c, k), LowerBound(b + c + a, k);
    Unfolded(s, k);
    Unfolded(c, k);
    if Found(c, k) {
      TakeFromMiddle(b, c, a, p);
    } else {
      PutInMiddle(b, c, a, p, k);
    }
  }

  lemma {:induction false} Unfolded(s: seq<Key>, k: Key)
    ensures Found(s, k) ==> LowerBound(s, k) < |s| && With(s, k) == s && Without(s, k) == TakeAt(s, LowerBound(s, k))
    ensures !Found(s, k) ==> Without(s, k) == s && With(s, k) == PutAt(s, LowerBound(s, k), k)
  {
  }

  lemma {:induction false} PutInMiddle(b: seq<Key>, c: seq<Key>, a: seq<Key>, p: nat, k: Key)
    requires p <= |c|
    ensures PutAt(b + c + a, |b| + p, k) == b + PutAt(c, p, k) + a
  {
    var s := b + c + a;
    assert s[..|b| + p] == b + c[..p] && s[|b| + p..] == c[p..] + a;
  }

  lemma {:induction false} TakeFromMiddle(b: seq<Key>, c: seq<Key>, a: seq<Key>, p: nat)
    requires p < |c|
    ensures TakeAt(b + c + a, |b| + p) == b + TakeAt(c, p) + a
  {
    var s := b + c + a;
    assert s[..|b| + p] == b + c[..p] && s[|b| + p + 1..] == c[p + 1..] + a;
  }

  lemma {:induction false} WithKeepsSorted(s: seq<Key>, k: Key)
    requires Sorted(s)
    ensures Sorted(With(s, k)) && Sorted(Without(s, k))
    ensures forall x :: x in With(s, k) <==> x in s || x == k
    ensures forall x :: x in Without(s, k) <==> x in s && x != k
  {
    SortedBound(s, k);
    hide LowerBound;
    var p := LowerBound(s, k);
    if Found(s, k) {
      TakenFrom(s, p);
    } else {
      PutTo(s, p, k);
    }
  }

  lemma {:induction false} TakenFrom(s: seq<Key>, p: nat)
    requires Sorted(s) && p < |s|
    ensures Sorted(TakeAt(s, p)) && forall x :: x in TakeAt(s, p) <==> x in s && x != s[p]
  {
    var t := TakeAt(s, p);
    assert forall i :: 0 <= i < |t| ==> t[i] == s[if i < p then i else i + 1];
    forall x | x in s && x != s[p]
      ensures x in t
    {
      var i :| 0 <= i < |s| && s[i] == x;
      assert t[if i < p then i else i - 1] == x;
    }
  }

  lemma {:induction false} PutTo(s: seq<Key>, p: nat, k: Key)
    requires Sorted(s) && p <= |s| && (forall j :: 0 <= j < p ==> s[j] < k) && (forall j :: p <= j < |s| ==> s[j] > k)
    ensures Sorted(PutAt(s, p, k)) && forall x :: x in PutAt(s, p, k) <==> x in s || x == k
  {
    assert s == s[..p] + s[p..];
  }

  // --- Which child a key is under ---------------------------------------------------------------------

  /** In a sorted node, a key that is not a separator belongs under the child that the search names. */
  lemma {:induction false} UnderChild(n: Node, h: nat, lo: nat, hi: nat, k: Key)
    requires Ok(n, h, lo, hi) && h > 0 && Sorted(InOrder(n)) && !Found(n.keys, k)
    ensures var i := LowerBound(n.keys, k);
            var b, a := Before(n.children, n.keys, i), After(n.children, n.keys, i);
            InOrder(n) == b + InOrder(n.children[i]) + a && Fits(b, k, a)
  {
    hide Weave;
    var i := LowerBound(n.keys, k);
    var b, c, a := Before(n.children, n.keys, i), InOrder(n.children[i]), After(n.children, n.keys, i);
    AtChild(n.children, n.keys, i);
    SortedParts(b, c, a);
    hide LowerBound;
    if i > 0 {
      assert b[|b| - 1] == n.keys[i - 1] < k;
    }
    if i < |n.keys| {
      assert a[0] == n.keys[i] > k;
    }
  }

  /** So putting it into that child, or taking it out, is doing so to the whole. */
  lemma {:induction false} ThroughChild(n: Node, h: nat, lo: nat, hi: nat, k: Key)
    requires Ok(n, h, lo, hi) && h > 0 && Sorted(InOrder(n)) && !Found(n.keys, k)
    ensures var i := LowerBound(n.keys, k);
            var b, c, a := Before(n.children, n.keys, i), InOrder(n.children[i]), After(n.children, n.keys, i);
            && Sorted(c) && (k in InOrder(n) <==> k in c)
            && With(InOrder(n), k) == b + With(c, k) + a && |With(InOrder(n), k)| == |InOrder(n)| + if k in c then 0 else 1
  {
    hide Before, After, InOrder;
    UnderChild(n, h, lo, hi, k);
    var i := LowerBound(n.keys, k);
    var b, c, a := Before(n.children, n.keys, i), InOrder(n.children[i]), After(n.children, n.keys, i);
    SortedParts(b, c, a);
    WithInMiddle(b, c, a, k);
    BoundInMiddle(b, c, a, k);
    WithLength(InOrder(n), k);
  }

  // --- Insertion -----------------------------------------------------------------------------------------

  datatype Split = NoSplit | Halves(median: Key, right: Node)

  /** The keys of a node and of what its split handed up. */
  function Whole(n: Node, split: Split): seq<Key> {
    match split
    case NoSplit => InOrder(n)
    case Halves(median, right) => InOrder(n) + [median] + InOrder(right)
  }

  /** split_if_overfull: no key moves out of order, and both halves are at least half full. */
  method SplitIfOverfull(n: Node, ghost h: nat, ghost lo: nat) returns (m: Node, split: Split)
    requires Ok(n, h, lo, MAX_KEYS + 1)
    ensures Whole(m, split) == InOrder(n)
    ensures split.NoSplit? ==> m == n && Ok(m, h, lo, MAX_KEYS)
    ensures split.Halves? ==> Ok(m, h, MIN_KEYS, MAX_KEYS) && Ok(split.right, h, MIN_KEYS, MAX_KEYS)
  {
    hide Weave, InOrder;
    if |n.keys| <= MAX_KEYS {
      return n, NoSplit;
    }
    var mid := |n.keys| / 2;
    var median := n.keys[mid];
    if n.children == [] {
      LeafIs(n, h, lo, MAX_KEYS + 1);
      m := Counted(n.keys[..mid], []);
      var right := Counted(n.keys[mid + 1..], []);
      CountedIsOk(n.keys[..mid], [], h, MIN_KEYS, MAX_KEYS);
      CountedIsOk(n.keys[mid + 1..], [], h, MIN_KEYS, MAX_KEYS);
      assert n.keys == n.keys[..mid] + [median] + n.keys[mid + 1..];
      return m, Halves(median, right);
    }
    InnerIs(n, h, lo, MAX_KEYS + 1);
    m := Counted(n.keys[..mid], n.children[..mid + 1]);
    var right := Counted(n.keys[mid + 1..], n.children[mid + 1..]);
    CountedIsOk(m.keys, m.children, h, MIN_KEYS, MAX_KEYS);
    CountedIsOk(right.keys, right.children, h, MIN_KEYS, MAX_KEYS);
    WeaveCut(n.children, n.keys, mid);
    return m, Halves(median, right);
  }

  lemma {:induction false} LeafIs(n: Node, h: nat, lo: nat, hi: nat)
    requires Ok(n, h, lo, hi) && n.children == []
    ensures h == 0 && InOrder(n) == n.keys && n.total == |n.keys|
  {
  }

  lemma {:induction false} InnerIs(n: Node, h: nat, lo: nat, hi: nat)
    requires Ok(n, h, lo, hi) && n.children != []
    ensures h > 0 && |n.children| == |n.keys| + 1 && AllOk(n.children, h - 1) && InOrder(n) == Weave(n.children, n.keys)
    ensures n.total == |Weave(n.children, n.keys)|
  {
  }

  /** insert_rec: the keys of what comes back are the old ones with k among them, and it says whether k is new. */
  method InsertRec(n: Node, k: Key, ghost h: nat, ghost lo: nat) returns (m: Node, inserted: bool, split: Split)
    requires Ok(n, h, lo, MAX_KEYS) && Sorted(InOrder(n))
    ensures inserted <==> k !in InOrder(n)
    ensures Whole(m, split) == With(InOrder(n), k)
    ensures split.NoSplit? ==> Ok(m, h, lo, MAX_KEYS)
    ensures split.Halves? ==> Ok(m, h, MIN_KEYS, MAX_KEYS) && Ok(split.right, h, MIN_KEYS, MAX_KEYS)
    decreases h, 1
  {
    hide Weave, InOrder;
    var i := LowerBound(n.keys, k);
    if i < |n.keys| && n.keys[i] == k {
      SeparatorIsThere(n, h, lo, MAX_KEYS, i);
      SortedBound(InOrder(n), k);
      return n, false, NoSplit;
    }
    if n.children == [] {
      LeafIs(n, h, lo, MAX_KEYS);
      SortedBound(n.keys, k);
      m := Node(n.keys[..i] + [k] + n.keys[i..], [], n.total + 1);
      PlainLeaf(m);
      m, split := SplitIfOverfull(m, h, lo);
      return m, true, split;
    }
    m, inserted, split := InsertInner(n, k, i, h, lo);
  }

  method InsertInner(n: Node, k: Key, i: nat, ghost h: nat, ghost lo: nat) returns (m: Node, inserted: bool, split: Split)
    requires Ok(n, h, lo, MAX_KEYS) && Sorted(InOrder(n)) && n.children != []
    requires i == LowerBound(n.keys, k) && !Found(n.keys, k)
    ensures inserted <==> k !in InOrder(n)
    ensures Whole(m, split) == With(InOrder(n), k)
    ensures split.NoSplit? ==> Ok(m, h, lo, MAX_KEYS)
    ensures split.Halves? ==> Ok(m, h, MIN_KEYS, MAX_KEYS) && Ok(split.right, h, MIN_KEYS, MAX_KEYS)
    decreases h, 0
  {
    InnerIs(n, h, lo, MAX_KEYS);
    ThroughChild(n, h, lo, MAX_KEYS, k);
    hide Weave, InOrder, With, Before, After, LowerBound, Found;
    var child, half;
    assert Ok(n.children[i], h - 1, MIN_KEYS, MAX_KEYS);
    child, inserted, half := InsertRec(n.children[i], k, h - 1, MIN_KEYS);
    var total := if inserted then n.total + 1 else n.total;
    match half {
      case NoSplit =>
        m := Node(n.keys, n.children[i := child], total);
        ReplaceChild(n, h, lo, i, m);
        return m, inserted, NoSplit;
      case Halves(median, right) =>
        m := Node(n.keys[..i] + [median] + n.keys[i..], n.children[..i] + [child, right] + n.children[i + 1..], total);
        SplitChild(n, h, lo, i, child, median, right, m);
        m, split := SplitIfOverfull(m, h, lo);
        return m, inserted, split;
    }
  }

  lemma {:induction false} PlainLeaf(m: Node)
    requires m.children == []
    ensures InOrder(m) == m.keys
  {
  }

  lemma {:induction false} WithLength(s: seq<Key>, k: Key)
    requires Sorted(s)
    ensures |With(s, k)| == if k in s then |s| else |s| + 1
    ensures |Without(s, k)| == if k in s then |s| - 1 else |s|
  {
    SortedBound(s, k);
  }

  /** A separator is one of the node's keys. */
  lemma {:induction false} SeparatorIsThere(n: Node, h: nat, lo: nat, hi: nat, i: nat)
    requires Ok(n, h, lo, hi) && i < |n.keys|
    ensures n.keys[i] in InOrder(n)
    ensures h > 0 ==> InOrder(n) == Before(n.children, n.keys, i) + InOrder(n.children[i]) + [n.keys[i]]
                                    + Weave(n.children[i + 1..], n.keys[i + 1..])
  {
    hide Weave;
    if h > 0 {
      AtChild(n.children, n.keys, i);
      var x, y := Before(n.children, n.keys, i) + InOrder(n.children[i]), Weave(n.children[i + 1..], n.keys[i + 1..]);
      assert x + ([n.keys[i]] + y) == x + [n.keys[i]] + y;
      assert (x + [n.keys[i]] + y)[|x|] == n.keys[i];
    }
  }

  /** One child replaced: the keys before it and after it are the same. */
  lemma {:induction false} ReplaceChild(n: Node, h: nat, lo: nat, i: nat, m: Node)
    requires Ok(n, h, lo, MAX_KEYS) && h > 0 && i < |n.children|
    requires m.keys == n.keys && |m.children| == |n.children| && m.children == n.children[i := m.children[i]]
    requires Ok(m.children[i], h - 1, MIN_KEYS, MAX_KEYS)
    ensures InOrder(m) == Before(n.children, n.keys, i) + InOrder(m.children[i]) + After(n.children, n.keys, i)
    ensures m.total == |InOrder(m)| ==> Ok(m, h, lo, MAX_KEYS)
  {
    hide Weave;
    AtChild(m.children, m.keys, i);
    assert m.children[..i] == n.children[..i] && m.children[i + 1..] == n.children[i + 1..];
  }

  /** One child replaced by two with a separator between them. */
  lemma {:induction false} SplitChild(n: Node, h: nat, lo: nat, i: nat, left: Node, k: Key, right: Node, m: Node)
    requires Ok(n, h, lo, MAX_KEYS) && h > 0 && i < |n.children|
    requires Ok(left, h - 1, MIN_KEYS, MAX_KEYS) && Ok(right, h - 1, MIN_KEYS, MAX_KEYS)
    requires m.keys == n.keys[..i] + [k] + n.keys[i..] && m.children == n.children[..i] + [left, right] + n.children[i + 1..]
    ensures InOrder(m) == Before(n.children, n.keys, i) + (InOrder(left) + [k] + InOrder(right)) + After(n.children, n.keys, i)
    ensures m.total == |InOrder(m)| ==> Ok(m, h, lo, MAX_KEYS + 1)
  {
    hide Weave;
    var cs, ks := m.children, m.keys;
    AtChild(cs, ks, i);
    assert cs[i] == left && cs[i + 1] == right && ks[i] == k;
    assert cs[..i] == n.children[..i] && (i > 0 ==> ks[..i - 1] == n.keys[..i - 1]);
    assert Before(cs, ks, i) == Before(n.children, n.keys, i);
    var cs', ks' := cs[i + 1..], ks[i + 1..];
    AtChild(cs', ks', 0);
    assert cs'[0] == right && cs'[1..] == n.children[i + 1..] && ks' == n.keys[i..];
    assert After(cs', ks', 0) == After(n.children, n.keys, i) by {
      if i < |n.keys| {
        assert ks'[0] == n.keys[i] && ks'[1..] == n.keys[i + 1..];
      }
    }
    assert [] + InOrder(right) == InOrder(right);
    var b, a := Before(n.children, n.keys, i), After(n.children, n.keys, i);
    assert b + InOrder(left) + ([k] + (InOrder(right) + a)) == b + (InOrder(left) + [k] + InOrder(right)) + a;
    assert AllOk(cs, h - 1);
  }
}
