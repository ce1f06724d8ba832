/** Winnowed fingerprints of a token stream: tools/clone_atlas.py, fingerprints. */
module Winnow {
  const K: nat := 30
  const W: nat := 20

  datatype Token = Token(text: string, line: nat)
  datatype Gram = Gram(hash: nat, line: nat)

  /** The digest of a k-gram's texts: any function of them. */
  type Digest = seq<string> -> nat

  function Texts(tokens: seq<Token>): (s: seq<string>)
    ensures |s| == |tokens|
  {
    seq(|tokens|, i requires 0 <= i < |tokens| => tokens[i].text)
  }

  function Hashes(grams: seq<Gram>): (s: seq<nat>)
    ensures |s| == |grams|
  {
    seq(|grams|, i requires 0 <= i < |grams| => grams[i].hash)
  }

  function GramAt(tokens: seq<Token>, h: Digest, i: nat): Gram
    requires i + K <= |tokens|
  {
    Gram(h(Texts(tokens[i..i + K])), tokens[i].line)
  }

  /** Every k-gram of the stream, in order. */
  function Grams(tokens: seq<Token>, h: Digest): (g: seq<Gram>)
    requires |tokens| >= K
    ensures |g| == |tokens| - K + 1
  {
    seq(|tokens| - K + 1, i requires 0 <= i <= |tokens| - K => GramAt(tokens, h, i))
  }

  /** p holds the smallest hash, the last one where that hash repeats. */
  ghost predicate IsLastMin(hs: seq<nat>, p: nat) {
    && p < |hs|
    && (forall q :: 0 <= q < |hs| ==> hs[p] <= hs[q])
    && (forall q :: p < q < |hs| ==> hs[p] < hs[q])
  }

  function LastMin(hs: seq<nat>): (p: nat)
    requires hs != []
    ensures IsLastMin(hs, p)
  {
    if |hs| == 1 then 0
    else
      var p := LastMin(hs[1..]) + 1;
      assert forall q :: 1 <= q < |hs| ==> hs[q] == hs[1..][q - 1];
      if hs[0] < hs[p] then 0 else p
  }

  /** The gram that window w keeps. */
  function Pick(g: seq<Gram>, w: nat): (p: nat)
    requires w + W <= |g|
    ensures w <= p < w + W
  {
    w + LastMin(Hashes(g[w..w + W]))
  }

  lemma {:induction false} PickIsLastMin(g: seq<Gram>, w: nat, q: nat)
    requires w + W <= |g| && w <= q < w + W
    ensures g[Pick(g, w)].hash <= g[q].hash
    ensures Pick(g, w) < q ==> g[Pick(g, w)].hash < g[q].hash
  {
    var hs := Hashes(g[w..w + W]);
    assert IsLastMin(hs, LastMin(hs));
    assert hs[q - w] == g[q].hash && hs[Pick(g, w) - w] == g[Pick(g, w)].hash;
  }

  /** The picked positions of the first k windows, a repeat of the previous pick left out. */
  function Positions(g: seq<Gram>, k: nat): (ps: seq<nat>)
    requires k + W <= |g| + 1
    ensures forall i :: 0 <= i < |ps| ==> ps[i] < |g|
  {
    if k == 0 then []
    else
      var before := Positions(g, k - 1);
      var p := Pick(g, k - 1);
      if before != [] && before[|before| - 1] == p then before else before + [p]
  }

  /** The positions that the stream is fingerprinted at. */
  function Selected(g: seq<Gram>): (ps: seq<nat>)
    requires |g| >= W
    ensures forall i :: 0 <= i < |ps| ==> ps[i] < |g|
  {
    Positions(g, |g| - W + 1)
  }

  function At(g: seq<Gram>, ps: seq<nat>): seq<Gram>
    requires forall i :: 0 <= i < |ps| ==> ps[i] < |g|
  {
    seq(|ps|, i requires 0 <= i < |ps| => g[ps[i]])
  }

  predicate Increasing(ps: seq<nat>) {
    forall i, j :: 0 <= i < j < |ps| ==> ps[i] < ps[j]
  }

  predicate Close(ps: seq<nat>) {
    forall i :: 0 <= i < |ps| - 1 ==> ps[i + 1] - ps[i] <= W
  }

  /** Sliding the window by one keeps the pick or moves it right, by at most W. */
  lemma {:induction false} PickMovesRight(g: seq<Gram>, w: nat)
    requires w + 1 + W <= |g|
    ensures Pick(g, w) <= Pick(g, w + 1) <= Pick(g, w) + W
  {
    if Pick(g, w + 1) < Pick(g, w) {
      PickIsLastMin(g, w, Pick(g, w + 1));
      PickIsLastMin(g, w + 1, Pick(g, w));
      assert false;
    }
  }

  lemma {:induction false} AppendKeepsDense(ps: seq<nat>, p: nat)
    requires ps != [] && Increasing(ps) && Close(ps) && ps[|ps| - 1] < p <= ps[|ps| - 1] + W
    ensures Increasing(ps + [p]) && Close(ps + [p])
  {
  }

  lemma {:induction false} PositionsAreDense(g: seq<Gram>, k: nat)
    requires 0 < k && k + W <= |g| + 1
    ensures var ps := Positions(g, k);
            ps != [] && ps[|ps| - 1] == Pick(g, k - 1) && Increasing(ps) && Close(ps)
  {
    hide Pick, Increasing, Close;
    var p := Pick(g, k - 1);
    if k == 1 {
      assert Positions(g, 0) == [] && Positions(g, 1) == [p];
      assert Increasing([p]) && Close([p]) by { OneIsDense(p); }
    } else {
      PositionsAreDense(g, k - 1);
      PickMovesRight(g, k - 2);
      var before := Positions(g, k - 1);
      if before[|before| - 1] != p {
        AppendKeepsDense(before, p);
      }
    }
  }

  lemma {:induction false} OneIsDense(p: nat)
    ensures Increasing([p]) && Close([p])
  {
  }

  lemma {:induction false} EveryPickIsKept(g: seq<Gram>, k: nat, w: nat)
    requires w < k && k + W <= |g| + 1
    ensures Pick(g, w) in Positions(g, k)
    decreases k
  {
    hide Pick;
    if w == k - 1 {
      PositionsAreDense(g, k);
      assert Positions(g, k)[|Positions(g, k)| - 1] == Pick(g, w);
    } else {
      EveryPickIsKept(g, k - 1, w);
    }
  }

  /** Some position of ps lies in window w. */
  ghost predicate Covers(ps: seq<nat>, w: nat) {
    exists p :: p in ps && w <= p < w + W
  }

  /**
   Winnowing density: selected positions strictly increase, so a position is never kept twice;
   neighbours are at most W apart; and every window of W grams holds a selected position.
   */
  lemma {:induction false} SelectionIsDense(g: seq<Gram>)
    requires |g| >= W
    ensures Increasing(Selected(g)) && Close(Selected(g))
    ensures forall w :: 0 <= w <= |g| - W ==> Covers(Selected(g), w)
  {
    PositionsAreDense(g, |g| - W + 1);
    forall w | 0 <= w <= |g| - W
      ensures Covers(Selected(g), w)
    {
      EveryPickIsKept(g, |g| - W + 1, w);
    }
  }

  /** The fingerprints of a stream, as a function of it. */
  function Prints(tokens: seq<Token>, h: Digest): seq<Gram> {
    if |tokens| < K + W then []
    else At(Grams(tokens, h), Selected(Grams(tokens, h)))
  }

  /** A fingerprint is the digest of K tokens in a row, under the line of the first of them. */
  lemma {:induction false} PrintsTellTheirPlace(tokens: seq<Token>, h: Digest, x: nat) returns (i: nat)
    requires x < |Prints(tokens, h)|
    ensures i + K <= |tokens| && Prints(tokens, h)[x].line == tokens[i].line
    ensures Prints(tokens, h)[x].hash == h(Texts(tokens[i..i + K])) && |Texts(tokens[i..i + K])| == K
    ensures var run := tokens[i..i + K]; forall k :: 0 <= k < K ==> Texts(run)[k] == run[k].text
  {
    hide Selected;
    i := Selected(Grams(tokens, h))[x];
  }

  /** fingerprints */
  method Fingerprints(tokens: seq<Token>, h: Digest) returns (out: seq<Gram>)
    ensures out == Prints(tokens, h)
  {
    hide At, Selected;
    if |tokens| < K + W {
      return [];
    }
    var grams: seq<Gram> := [];
    for i := 0 to |tokens| - K + 1
      invariant |grams| == i && forall j :: 0 <= j < i ==> grams[j] == GramAt(tokens, h, j)
    {
      grams := grams + [Gram(h(Texts(tokens[i..i + K])), tokens[i].line)];
    }
    assert grams == Grams(tokens, h);
    out := Winnowed(grams);
  }

  /** The second loop: the pick of each window, unless it is the pick before it. */
  method Winnowed(grams: seq<Gram>) returns (out: seq<Gram>)
    requires |grams| >= W
    ensures out == At(grams, Selected(grams))
  {
    hide At, Positions, LastMin, Hashes;
    out := [];
    var prev: int := -1;
    NothingSelected(grams);
    for i := 0 to |grams| - W + 1
      invariant out == At(grams, Positions(grams, i)) && prev == LastOf(Positions(grams, i))
    {
      var window := grams[i..i + W];
      var best := LastMin(Hashes(window));
      PositionsStep(grams, i);
      if i + best != prev {
        out := out + [window[best]];
        prev := i + best;
      }
    }
  }

  /** The last position, or -1. */
  function LastOf(ps: seq<nat>): int {
    if ps == [] then -1 else ps[|ps| - 1]
  }

  lemma {:induction false} NothingSelected(g: seq<Gram>)
    requires |g| >= W
    ensures Positions(g, 0) == [] && At(g, []) == []
  {
  }

  lemma {:induction false} PositionsStep(g: seq<Gram>, k: nat)
    requires k + W <= |g|
    ensures var before, p := Positions(g, k), Pick(g, k);
            && Positions(g, k + 1) == (if p == LastOf(before) then before else before + [p])
            && At(g, before + [p]) == At(g, before) + [g[p]]
            && LastOf(before + [p]) == p
  {
    hide Pick;
    var before, p := Positions(g, k), Pick(g, k);
    assert At(g, before + [p]) == At(g, before) + [g[p]];
  }

  // --- The guarantee ---------------------------------------------------------------------

  /** The same run of n token texts, at i in one stream and at j in the other. */
  predicate SharedRun(a: seq<Token>, i: nat, b: seq<Token>, j: nat, n: nat) {
    i + n <= |a| && j + n <= |b| && Texts(a[i..i + n]) == Texts(b[j..j + n])
  }

  lemma {:induction false} TextsOfGram(a: seq<Token>, i: nat, n: nat, k: nat)
    requires i + n <= |a| && k + K <= n
    ensures Texts(a[i + k..i + k + K]) == Texts(a[i..i + n])[k..k + K]
  {
    var whole := Texts(a[i..i + n]);
    var gram, part := Texts(a[i + k..i + k + K]), whole[k..k + K];
    forall x | 0 <= x < |gram|
      ensures gram[x] == part[x]
    {
      assert whole[k + x] == a[i + (k + x)].text;
    }
  }

  /** A shared run of K + W - 1 tokens is a shared window of W hashes. */
  lemma {:induction false} SharedHashes(a: seq<Token>, i: nat, b: seq<Token>, j: nat, h: Digest)
    requires SharedRun(a, i, b, j, K + W - 1)
    ensures Hashes(Grams(a, h)[i..i + W]) == Hashes(Grams(b, h)[j..j + W])
  {
    var x, y := Hashes(Grams(a, h)[i..i + W]), Hashes(Grams(b, h)[j..j + W]);
    forall k | 0 <= k < W
      ensures x[k] == y[k]
    {
      TextsOfGram(a, i, K + W - 1, k);
      TextsOfGram(b, j, K + W - 1, k);
      assert x[k] == GramAt(a, h, i + k).hash && y[k] == GramAt(b, h, j + k).hash;
    }
  }

  lemma {:induction false} PickIsPrinted(tokens: seq<Token>, h: Digest, w: nat)
    requires |tokens| >= K + W && w + W + K <= |tokens| + 1
    ensures Grams(tokens, h)[Pick(Grams(tokens, h), w)] in Prints(tokens, h)
  {
    hide Pick, Positions;
    var g := Grams(tokens, h);
    EveryPickIsKept(g, |g| - W + 1, w);
    var ps := Selected(g);
    var x :| 0 <= x < |ps| && ps[x] == Pick(g, w);
    assert Prints(tokens, h)[x] == g[ps[x]];
  }

  ghost predicate ShareAPrint(a: seq<Token>, b: seq<Token>, h: Digest) {
    exists x, y :: x in Prints(a, h) && y in Prints(b, h) && x.hash == y.hash
  }

  /**
   Winnowing guarantee: two streams that share a run of K + W - 1 tokens share a fingerprint
   exactly when both hold at least K + W tokens.
   */
  lemma {:induction false} SharedRunGivesSharedPrint(a: seq<Token>, i: nat, b: seq<Token>, j: nat, h: Digest)
    requires SharedRun(a, i, b, j, K + W - 1)
    ensures ShareAPrint(a, b, h) <==> |a| >= K + W && |b| >= K + W
  {
    hide Pick, At, Selected, Grams;
    if |a| >= K + W && |b| >= K + W {
      SharedPickHash(a, i, b, j, h);
      PickIsPrinted(a, h, i);
      PickIsPrinted(b, h, j);
    }
  }

  /** The two windows over a shared run keep grams of one hash. */
  lemma {:induction false} SharedPickHash(a: seq<Token>, i: nat, b: seq<Token>, j: nat, h: Digest)
    requires SharedRun(a, i, b, j, K + W - 1)
    ensures var g, f := Grams(a, h), Grams(b, h); g[Pick(g, i)].hash == f[Pick(f, j)].hash
  {
    hide LastMin;
    SharedHashes(a, i, b, j, h);
    HashOfPick(Grams(a, h), i);
    HashOfPick(Grams(b, h), j);
  }

  lemma {:induction false} HashOfPick(g: seq<Gram>, w: nat)
    requires w + W <= |g|
    ensures var hs := Hashes(g[w..w + W]); g[Pick(g, w)].hash == hs[LastMin(hs)]
  {
    hide LastMin;
  }

  /** A stream of K + W - 1 tokens is one whole window and yet has no fingerprint: it shares none with itself. */
  lemma {:induction false} ShortestRunIsMissed(a: seq<Token>, h: Digest)
    requires |a| == K + W - 1
    ensures SharedRun(a, 0, a, 0, K + W - 1) && !ShareAPrint(a, a, h)
  {
    SharedRunGivesSharedPrint(a, 0, a, 0, h);
  }
}
