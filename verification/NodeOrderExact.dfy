/** Exactly when node_order_free of bench/cligate.py is idempotent, on any text. */
module NodeOrderExact {
  import opened Bytes
  import opened NodeOrder

  /** The last item of a run in sorted order. */
  function Greatest(bs: seq<Block>): Block
    requires Sort(bs) != []
  {
    var s := Sort(bs);
    s[|s| - 1]
  }

  predicate EndsBlank(b: Block) {
    b != [] && b[|b| - 1] == ""
  }

  /** The text ends in a run of reports whose greatest report trails a blank line and is there twice. */
  predicate RepeatsABlankTailedLast(segs: seq<Segment>) {
    && segs != []
    && var s := segs[|segs| - 1];
       && s.Run? && s.kind == Reports && Sort(s.blocks) != []
       && EndsBlank(Greatest(s.blocks)) && multiset(s.blocks)[Greatest(s.blocks)] >= 2
  }

  // --- The order around a trailing blank line ------------------------------------------------

  /** Nothing lies between a block and the block with one more blank line. */
  lemma {:induction false} BlankTailIsNext(b: Block, f: Block)
    requires BlockLe(f, b + [""]) && !BlockLe(f, b)
    ensures f == b + [""]
  {
    if b == [] {
      assert b + [""] == [""];
      assert f[1..] == [];
      assert f == [f[0]] + f[1..];
    } else {
      assert (b + [""])[1..] == b[1..] + [""] && (b + [""])[0] == b[0];
      BlankTailIsNext(b[1..], f[1..]);
      assert f == [f[0]] + f[1..] && b == [b[0]] + b[1..];
    }
  }

  /** A block is below itself, and a shorter prefix of it is strictly below. */
  lemma {:induction false} PrefixIsBelow(b: Block)
    ensures BlockLe(b, b + [""]) && !BlockLe(b + [""], b)
  {
    if b == [] {
      assert b + [""] == [""];
    } else {
      assert (b + [""])[1..] == b[1..] + [""] && (b + [""])[0] == b[0];
      PrefixIsBelow(b[1..]);
    }
  }

  /** The greatest of a sorted list is there twice exactly when it is the last but one as well. */
  lemma {:induction false} TwiceMeansNext(s: seq<Block>)
    requires s != [] && Sorted(s)
    ensures multiset(s)[s[|s| - 1]] >= 2 <==> |s| >= 2 && s[|s| - 2] == s[|s| - 1]
  {
    var n := |s| - 1;
    var b := s[n];
    assert s == s[..n] + [b];
    if n > 0 {
      var m := n - 1;
      assert s[..n] == s[..m] + [s[m]];
      if b in s[..n] {
        var i :| 0 <= i < n && s[i] == b;
        if i < m {
          assert BlockLe(s[i], s[m]) && BlockLe(s[m], s[n]);
          BlockOrder(s[m], b);
        }
      }
      assert multiset(s) == multiset(s[..n]) + multiset{b};
      assert multiset(s[..n])[b] > 0 <==> b in s[..n];
    }
  }

  // --- Lines determine items -------------------------------------------------------------------

  ghost predicate AllItems(kind: RunKind, bs: seq<Block>) {
    forall i :: 0 <= i < |bs| ==> IsItem(kind, bs[i])
  }

  /** The lines of a run say where its items are. */
  lemma {:induction false} ConcatIsInjective(kind: RunKind, a: seq<Block>, b: seq<Block>)
    requires AllItems(kind, a) && AllItems(kind, b) && a != [] && b != [] && Concat(a) == Concat(b)
    ensures a == b
  {
    hide Fold, Concat, IsItem;
    FoldRun([], kind, [], a);
    FoldRun([], kind, [], b);
    assert [] + a == a && [] + b == b;
    assert [] + [Run(kind, a)] == [Run(kind, a)] && [] + [Run(kind, b)] == [Run(kind, b)];
    assert [Run(kind, a)][0].blocks == [Run(kind, b)][0].blocks;
  }

  /** Sorting leaves the lines of a run alone exactly when its items are sorted. */
  lemma {:induction false} SortKeepsTextExactly(kind: RunKind, bs: seq<Block>)
    requires AllItems(kind, bs) && bs != []
    ensures Concat(Sort(bs)) == Concat(bs) <==> Sorted(bs)
  {
    hide IsItem, Concat;
    SortSorts(bs);
    SortedItems(kind, bs);
    if Sorted(bs) {
      SortedIsUnique(Sort(bs), bs);
    }
    if Concat(Sort(bs)) == Concat(bs) {
      ConcatIsInjective(kind, Sort(bs), bs);
    }
  }

  // --- The last line of a text --------------------------------------------------------------------

  /** A last line that is not blank is taken like any other. */
  lemma {:induction false} FlagOnlyMattersForBlank(segs: seq<Segment>, lines: seq<Line>)
    requires lines != [] && lines[|lines| - 1] != ""
    ensures Fold(segs, lines, true) == Fold(segs, lines, false)
    decreases |lines|
  {
    if |lines| == 1 {
      assert lines[1..] == [];
      assert Step(segs, lines[0], true) == Step(segs, lines[0], false);
    } else {
      FlagOnlyMattersForBlank(Step(segs, lines[0], false), lines[1..]);
    }
  }

  lemma {:induction false} LastLine(segs: seq<Segment>)
    requires segs != [] && segs[|segs| - 1].Run? && segs[|segs| - 1].blocks != []
    requires var bs := segs[|segs| - 1].blocks; bs[|bs| - 1] != []
    ensures var bs := segs[|segs| - 1].blocks;
            var b := bs[|bs| - 1];
            Flatten(segs) != [] && Flatten(segs)[|Flatten(segs)| - 1] == b[|b| - 1]
  {
    var n := |segs| - 1;
    var bs := segs[n].blocks;
    assert segs == segs[..n] + [segs[n]] && bs == bs[..|bs| - 1] + [bs[|bs| - 1]];
    FlattenLast(segs[..n], segs[n]);
    ConcatAppend(bs[..|bs| - 1], bs[|bs| - 1]);
  }

  lemma {:induction false} SortRunsTwice(segs: seq<Segment>)
    ensures SortRuns(SortRuns(segs)) == SortRuns(segs)
  {
    hide Sort;
    forall i | 0 <= i < |segs|
      ensures SortRun(SortRun(segs[i])) == SortRun(segs[i])
    {
      if segs[i].Run? {
        SortIsCanonical(segs[i].blocks, segs[i].blocks);
      }
    }
  }

  // --- The three ways a canonical text can end ------------------------------------------------------

  /** Segments that end in a lone line, or in an item without a trailing blank line, are found again. */
  lemma {:induction false} FoundAgain(segs: seq<Segment>)
    requires segs != [] && Good(segs, true)
    requires var s := segs[|segs| - 1]; s.Run? ==> !EndsBlank(s.blocks[|s.blocks| - 1])
    ensures Segments(Flatten(segs)) == segs
  {
    hide Flatten, Fold, Concat;
    var s := segs[|segs| - 1];
    assert [] + segs == segs;
    if s.Run? {
      assert GoodSegment(s) && IsItem(s.kind, s.blocks[|s.blocks| - 1]);
      LastLine(segs);
      GoodEitherWay(segs);
      FlagOnlyMattersForBlank([], Flatten(segs));
      FoldSegments([], segs, false);
    } else {
      FoldSegments([], segs, true);
    }
  }

  lemma {:induction false} GoodEitherWay(segs: seq<Segment>)
    requires segs != [] && Good(segs, true) && segs[|segs| - 1].Run?
    ensures Good(segs, false)
  {
    hide GoodSegment, Continues;
    forall i, j | 0 <= i && j == i + 1 < |segs|
      ensures MayFollow(segs[i], segs[j], false)
    {
      assert MayFollow(segs[i], segs[j], true && j == |segs| - 1);
    }
  }

  /** Only a report trails blank lines. */
  lemma {:induction false} BlankTailsAreReports(kind: RunKind, b: Block)
    requires IsItem(kind, b) && EndsBlank(b)
    ensures kind == Reports && |b| >= 2 && IsItem(Reports, b[..|b| - 1])
  {
    hide PerNodeLine;
    EmptyLineIsPlain();
    if |b| == 1 {
      StartOfItem(kind, b[0]);
      assert false;
    }
    assert IsTail(kind, b[|b| - 1]);
    assert forall i :: 1 <= i < |b| - 1 ==> b[..|b| - 1][i] == b[i];
  }

  /** The segments with the last blank line taken off the last item. */
  function Clipped(segs: seq<Segment>): (r: seq<Segment>)
    requires segs != [] && segs[|segs| - 1].Run? && segs[|segs| - 1].blocks != []
    requires var bs := segs[|segs| - 1].blocks; bs[|bs| - 1] != []
    ensures |r| == |segs|
  {
    var bs := segs[|segs| - 1].blocks;
    var b := bs[|bs| - 1];
    segs[..|segs| - 1] + [Run(Reports, bs[..|bs| - 1] + [b[..|b| - 1]])]
  }

  /** segs end in a run whose last item trails a blank line. */
  ghost predicate EndsInBlankTail(segs: seq<Segment>) {
    && segs != [] && Good(segs, true) && segs[|segs| - 1].Run?
    && var bs := segs[|segs| - 1].blocks; bs != [] && EndsBlank(bs[|bs| - 1])
  }

  lemma {:induction false} ClippedIsGood(segs: seq<Segment>)
    requires EndsInBlankTail(segs)
    ensures Good(Clipped(segs), false) && segs[|segs| - 1].kind == Reports
    ensures AllItems(Reports, Clipped(segs)[|segs| - 1].blocks)
  {
    hide Continues, IsItem, EndsBlank;
    var n := |segs| - 1;
    var s := segs[n];
    assert GoodSegment(s);
    var bs := s.blocks;
    BlankTailsAreReports(s.kind, bs[|bs| - 1]);
    GoodEitherWay(segs);
    var next := Clipped(segs);
    forall i, j | 0 <= i && j == i + 1 < |next|
      ensures MayFollow(next[i], next[j], false)
    {
      assert MayFollow(segs[i], segs[j], false && j == |segs| - 1);
    }
  }

  lemma {:induction false} ClippedText(segs: seq<Segment>)
    requires EndsInBlankTail(segs)
    ensures Flatten(segs) == Flatten(Clipped(segs)) + [""]
  {
    hide Good, Flatten, Concat;
    var n := |segs| - 1;
    var bs := segs[n].blocks;
    var m := |bs| - 1;
    var b := bs[m];
    var short := b[..|b| - 1];
    assert segs == segs[..n] + [segs[n]] && bs == bs[..m] + [b] && b == short + [""];
    FlattenLast(segs[..n], segs[n]);
    FlattenLast(segs[..n], Clipped(segs)[n]);
    ConcatAppend(bs[..m], b);
    ConcatAppend(bs[..m], short);
    var front := Flatten(segs[..n]);
    assert front + (Concat(bs[..m]) + (short + [""])) == front + (Concat(bs[..m]) + short) + [""];
  }

  /** At the end of the text the blank line stands alone. */
  lemma {:induction false} ClippedSegments(segs: seq<Segment>)
    requires EndsInBlankTail(segs)
    ensures Segments(Flatten(segs)) == Clipped(segs) + [Other("")]
  {
    hide Good, Flatten, Clipped;
    ClippedIsGood(segs);
    ClippedText(segs);
    var clipped := Clipped(segs);
    assert [] + clipped == clipped;
    FoldSplit([], Flatten(clipped), [""], true);
    FoldSegments([], clipped, false);
    EmptyLineIsPlain();
    assert [""][1..] == [];
    assert Step(clipped, "", true) == clipped + [Other("")];
  }

  /** What the second application leaves of a text that ends in a blank tail. */
  lemma {:induction false} SecondText(segs: seq<Segment>)
    requires EndsInBlankTail(segs) && SortRuns(segs) == segs
    ensures var items := Clipped(segs)[|segs| - 1].blocks;
            Canonical(Flatten(segs)) == Flatten(segs) <==> Sorted(items)
  {
    hide Good, Flatten, Concat, Sort, Segments;
    var n := |segs| - 1;
    var clipped := Clipped(segs);
    var items := clipped[n].blocks;
    var pre := segs[..n];
    ClippedIsGood(segs);
    ClippedText(segs);
    ClippedSegments(segs);
    var all := clipped + [Other("")];
    var sorted := pre + [Run(Reports, Sort(items))];
    forall i | 0 <= i < n
      ensures SortRun(pre[i]) == pre[i]
    {
      assert SortRuns(segs)[i] == segs[i];
    }
    assert SortRuns(all) == sorted + [Other("")];
    FlattenLast(sorted, Other(""));
    FlattenLast(pre, Run(Reports, Sort(items)));
    FlattenLast(pre, clipped[n]);
    SortKeepsTextExactly(Reports, items);
    SameTails(Flatten(pre), Concat(Sort(items)), Concat(items));
  }

  lemma {:induction false} SameTails(front: seq<Line>, a: seq<Line>, b: seq<Line>)
    ensures front + a + [""] == front + b + [""] <==> a == b
  {
    var x, y := front + a + [""], front + b + [""];
    if x == y {
      assert |a| == |b|;
      assert a == x[|front|..|front| + |a|] && b == y[|front|..|front| + |b|];
    }
  }

  /** With its last blank line off, a sorted run stays sorted exactly when its greatest item is alone. */
  lemma {:induction false} StaysSortedExactly(bs: seq<Block>)
    requires bs != [] && Sorted(bs) && EndsBlank(bs[|bs| - 1])
    ensures var m := |bs| - 1;
            Sorted(bs[..m] + [bs[m][..|bs[m]| - 1]]) <==> multiset(bs)[bs[m]] < 2
  {
    var m := |bs| - 1;
    var b := bs[m];
    var short := b[..|b| - 1];
    assert b == short + [""];
    PrefixIsBelow(short);
    TwiceMeansNext(bs);
    var after := bs[..m] + [short];
    if m > 0 {
      assert BlockLe(bs[m - 1], b);
      if bs[m - 1] == b {
        assert after[m - 1] == b && after[m] == short;
      } else {
        if !BlockLe(bs[m - 1], short) {
          BlankTailIsNext(short, bs[m - 1]);
          assert false;
        }
        forall i | 0 <= i < m
          ensures BlockLe(bs[i], short)
        {
          if i < m - 1 {
            BlockTransitive(bs[i], bs[m - 1], short);
          }
        }
      }
    }
  }

  // --- Main results ------------------------------------------------------------------------------------

  /**
   A second application changes the lines of a text exactly when the text ends in a run of reports
   whose greatest report trails a blank line and is there at least twice.
   */
  lemma {:induction false} IdempotentExactly(lines: seq<Line>)
    ensures Canonical(Canonical(lines)) == Canonical(lines) <==> !RepeatsABlankTailedLast(Segments(lines))
  {
    if lines == [] {
      assert Segments(lines) == [] && Canonical(lines) == [];
    } else {
      SortedEndings(lines);
    }
  }

  lemma {:induction false} SortedEndings(lines: seq<Line>)
    requires lines != []
    ensures Canonical(Canonical(lines)) == Canonical(lines) <==> !RepeatsABlankTailedLast(Segments(lines))
  {
    hide Segments, Flatten, Sort, EndsBlank, Good;
    var segs := Segments(lines);
    assert Good(segs, true) && segs != [] by {
      SegmentsAreGood(lines);
    }
    SortRunsIsGood(segs, true);
    SortRunsTwice(segs);
    var sorted := SortRuns(segs);
    var s := sorted[|sorted| - 1];
    if !s.Run? {
      FoundAgain(sorted);
    } else {
      var bs := s.blocks;
      LastIsSorted(segs);
      if EndsBlank(bs[|bs| - 1]) {
        SecondText(sorted);
        ClippedIsGood(sorted);
        StaysSortedExactly(bs);
      } else {
        FoundAgain(sorted);
      }
    }
  }

  lemma {:induction false} SegmentsAreGood(lines: seq<Line>)
    requires lines != []
    ensures Good(Segments(lines), true) && Segments(lines) != []
  {
    hide Good, Step;
    FoldIsGood([], lines, true) by {
      assert Good([], false) by {
        EmptyIsGood();
      }
    }
    FoldKeepsLines([], lines, true);
  }

  lemma {:induction false} EmptyIsGood()
    ensures Good([], false)
  {
  }

  /** The last run of the sorted segments: its items sorted, the same items as before, and not empty. */
  lemma {:induction false} LastIsSorted(segs: seq<Segment>)
    requires segs != [] && Good(segs, true) && segs[|segs| - 1].Run?
    ensures var before, bs := segs[|segs| - 1].blocks, SortRuns(segs)[|segs| - 1].blocks;
            bs == Sort(before) && bs != [] && Sorted(bs) && multiset(bs) == multiset(before)
  {
    var before := segs[|segs| - 1].blocks;
    assert GoodSegment(segs[|segs| - 1]);
    SortSorts(before);
    assert |multiset(Sort(before))| == |multiset(before)|;
  }

  /** The same on text, newline-terminated or not. */
  lemma {:induction false} TextIdempotentExactly(out: string)
    ensures NodeOrderFree(NodeOrderFree(out)) == NodeOrderFree(out)
       <==> !RepeatsABlankTailedLast(Segments(Split(out)))
  {
    hide Canonical, Split, Join, Segments;
    SplitOfResult(out);
    IdempotentExactly(Split(out));
    var once := Canonical(Split(out));
    assert NodeOrderFree(out) == Join(once);
    SplitOfResult(NodeOrderFree(out));
    assert Split(NodeOrderFree(NodeOrderFree(out))) == Canonical(once);
  }
}
