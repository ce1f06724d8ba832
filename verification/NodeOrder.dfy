/** Cluster-manager output with the node order taken out: node_order_free of bench/cligate.py. */
module NodeOrder {
  import opened Bytes

  type Line = string
  type Block = seq<Line>

  // --- Lexicographic order of blocks -----------------------------------------------------

  predicate LineLe(a: Line, b: Line) {
    a == "" || (b != "" && (a[0] < b[0] || (a[0] == b[0] && LineLe(a[1..], b[1..]))))
  }

  predicate BlockLe(a: Block, b: Block) {
    a == [] || (b != [] && if a[0] == b[0] then BlockLe(a[1..], b[1..]) else LineLe(a[0], b[0]))
  }

  lemma {:induction false} LineOrder(a: Line, b: Line)
    ensures LineLe(a, b) || LineLe(b, a)
    ensures LineLe(a, b) && LineLe(b, a) ==> a == b
  {
    if a != "" && b != "" {
      LineOrder(a[1..], b[1..]);
      assert a == [a[0]] + a[1..] && b == [b[0]] + b[1..];
    }
  }

  lemma {:induction false} LineTransitive(a: Line, b: Line, c: Line)
    requires LineLe(a, b) && LineLe(b, c)
    ensures LineLe(a, c)
  {
    if a != "" && a[0] == b[0] == c[0] {
      LineTransitive(a[1..], b[1..], c[1..]);
    }
  }

  lemma {:induction false} BlockOrder(a: Block, b: Block)
    ensures BlockLe(a, b) || BlockLe(b, a)
    ensures BlockLe(a, b) && BlockLe(b, a) ==> a == b
  {
    if a != [] && b != [] {
      LineOrder(a[0], b[0]);
      BlockOrder(a[1..], b[1..]);
      assert a == [a[0]] + a[1..] && b == [b[0]] + b[1..];
    }
  }

  lemma {:induction false} BlockTransitive(a: Block, b: Block, c: Block)
    requires BlockLe(a, b) && BlockLe(b, c)
    ensures BlockLe(a, c)
  {
    if a != [] {
      if a[0] == b[0] == c[0] {
        BlockTransitive(a[1..], b[1..], c[1..]);
      } else {
        LineOrder(a[0], c[0]);
        LineOrder(a[0], b[0]);
        LineOrder(b[0], c[0]);
        assert a[0] == b[0] ==> LineLe(a[0], b[0]);
        assert LineLe(a[0], b[0]) && LineLe(b[0], c[0]) by {
          assert LineLe(a[0], a[0]) by { LineOrder(a[0], a[0]); }
          assert LineLe(b[0], b[0]) by { LineOrder(b[0], b[0]); }
        }
        LineTransitive(a[0], b[0], c[0]);
      }
    }
  }

  predicate Sorted(bs: seq<Block>) {
    forall i, j :: 0 <= i < j < |bs| ==> BlockLe(bs[i], bs[j])
  }

  function Insert(b: Block, bs: seq<Block>): seq<Block> {
    if bs == [] then [b]
    else if BlockLe(b, bs[0]) then [b] + bs
    else [bs[0]] + Insert(b, bs[1..])
  }

  /** sorted() */
  function Sort(bs: seq<Block>): seq<Block> {
    if bs == [] then [] else Insert(bs[0], Sort(bs[1..]))
  }

  lemma {:induction false} InsertKeeps(b: Block, bs: seq<Block>)
    ensures multiset(Insert(b, bs)) == multiset{b} + multiset(bs)
    ensures Sorted(bs) ==> Sorted(Insert(b, bs))
  {
    if bs == [] {
    } else if BlockLe(b, bs[0]) {
      assert multiset([b] + bs) == multiset{b} + multiset(bs);
      if Sorted(bs) {
        forall j | 0 <= j < |bs|
          ensures BlockLe(b, bs[j])
        {
          if j > 0 {
            BlockTransitive(b, bs[0], bs[j]);
          }
        }
      }
    } else {
      InsertKeeps(b, bs[1..]);
      var rest := Insert(b, bs[1..]);
      assert bs == [bs[0]] + bs[1..];
      if Sorted(bs) {
        BlockOrder(b, bs[0]);
        forall j | 0 <= j < |rest|
          ensures BlockLe(bs[0], rest[j])
        {
          assert rest[j] in multiset(rest);
          if rest[j] != b {
            assert rest[j] in multiset(bs[1..]);
            var x :| 0 <= x < |bs[1..]| && bs[1..][x] == rest[j];
          }
        }
      }
    }
  }

  lemma {:induction false} SortSorts(bs: seq<Block>)
    ensures multiset(Sort(bs)) == multiset(bs) && Sorted(Sort(bs))
  {
    if bs != [] {
      SortSorts(bs[1..]);
      InsertKeeps(bs[0], Sort(bs[1..]));
      assert bs == [bs[0]] + bs[1..];
    }
  }

  /** The head of a sorted list is below every block of it. */
  lemma {:induction false} HeadIsLeast(a: seq<Block>, x: Block)
    requires Sorted(a) && x in multiset(a)
    ensures a != [] && BlockLe(a[0], x)
  {
    BlockOrder(x, x);
    var i :| 0 <= i < |a| && a[i] == x;
  }

  lemma {:induction false} TailOf(a: seq<Block>)
    requires a != []
    ensures multiset(a[1..]) == multiset(a) - multiset{a[0]} && a[0] in multiset(a)
  {
    assert a == [a[0]] + a[1..];
  }

  /** Two sorted arrangements of the same blocks are the same list. */
  lemma {:induction false} SortedIsUnique(a: seq<Block>, b: seq<Block>)
    requires Sorted(a) && Sorted(b) && multiset(a) == multiset(b)
    ensures a == b
  {
    assert |multiset(a)| == |a| && |multiset(b)| == |b|;
    if a != [] {
      TailOf(a);
      TailOf(b);
      HeadIsLeast(a, b[0]);
      HeadIsLeast(b, a[0]);
      BlockOrder(a[0], b[0]);
      SortedIsUnique(a[1..], b[1..]);
      assert a == [a[0]] + a[1..] && b == [b[0]] + b[1..];
    }
  }

  lemma {:induction false} SortIsCanonical(a: seq<Block>, b: seq<Block>)
    ensures Sort(a) == Sort(b) <==> multiset(a) == multiset(b)
    ensures Sort(Sort(a)) == Sort(a)
  {
    SortSorts(a);
    SortSorts(b);
    SortSorts(Sort(a));
    SortedIsUnique(Sort(Sort(a)), Sort(a));
    if multiset(a) == multiset(b) {
      SortedIsUnique(Sort(a), Sort(b));
    }
  }

  // --- The kinds of line -------------------------------------------------------------------

  predicate StartsWith(line: Line, prefix: string) {
    prefix <= line
  }

  predicate IsSpace(c: char) {
    c == ' ' || c == '\t' || c == '\n' || c == '\r' || c == '\U{b}' || c == '\U{c}'
  }

  predicate NoSpace(s: string) {
    forall i :: 0 <= i < |s| ==> !IsSpace(s[i])
  }

  predicate Digits(s: string) {
    s != "" && forall i :: 0 <= i < |s| ==> '0' <= s[i] <= '9'
  }

  /** A word, a colon, a number, and then the given text. */
  predicate AddressThen(line: Line, text: string) {
    exists i, j :: 0 < i < j <= |line| && line[i] == ':' && NoSpace(line[..i]) && Digits(line[i + 1..j]) && text <= line[j..]
  }

  /** PER_NODE_LINE */
  predicate PerNodeLine(line: Line) {
    || AddressThen(line, " (")
    || AddressThen(line, ": ")
    || StartsWith(line, "*** New timeout set for ")
    || StartsWith(line, "ERR setting node-timeout for ")
    || StartsWith(line, "[WARNING] Node ")
    || (StartsWith(line, ">>> Node ")
        && exists j :: 9 < j <= |line| && NoSpace(line[9..j]) && " -> Saving RDB" <= line[j..])
  }

  predicate BlockStart(line: Line) {
    StartsWith(line, "M: ") || StartsWith(line, "S: ") || StartsWith(line, "SYNC sent to master")
  }

  datatype RunKind = Blocks | Reports

  /** A line that belongs to the item before it. */
  predicate Continues(kind: RunKind, line: Line, last: bool) {
    match kind
    case Blocks => StartsWith(line, "   ") || StartsWith(line, "Transfer finished")
    case Reports => line == "" && !last
  }

  predicate Starts(kind: RunKind, line: Line) {
    match kind
    case Blocks => BlockStart(line)
    case Reports => PerNodeLine(line) && !BlockStart(line)
  }

  lemma {:induction false} AddressWord(line: Line, text: string) returns (i: nat)
    requires AddressThen(line, text)
    ensures 0 < i < |line| && line[i] == ':' && forall k :: 0 <= k < i ==> !IsSpace(line[k])
  {
    var x, y :| 0 < x < y <= |line| && line[x] == ':' && NoSpace(line[..x]) && Digits(line[x + 1..y]) && text <= line[y..];
    i := x;
    assert forall k :: 0 <= k < i ==> line[..x][k] == line[k];
  }

  /** A report starts with a visible character, and has a colon in its first word or one of the fixed first letters. */
  lemma {:induction false} ReportHead(line: Line)
    requires PerNodeLine(line)
    ensures line != "" && !IsSpace(line[0])
    ensures line[0] == 'T' && |line| > 8 && line[8] == ' ' ==> exists k :: 0 <= k < 8 && line[k] == ':'
  {
    if AddressThen(line, " (") {
      var i := AddressWord(line, " (");
    } else if AddressThen(line, ": ") {
      var i := AddressWord(line, ": ");
    }
  }

  lemma {:induction false} PerNodeLineIsNoTail(line: Line)
    requires PerNodeLine(line)
    ensures !Continues(Blocks, line, false) && line != ""
  {
    hide PerNodeLine;
    ReportHead(line);
    var p := "Transfer finished";
    assert p[0] == 'T' && p[8] == ' ' && forall k :: 0 <= k < 8 ==> p[k] != ':';
  }

  // --- Segments ------------------------------------------------------------------------------

  /** A line on its own, or a run of items of one kind; an item is a line and those that continue it. */
  datatype Segment = Other(line: Line) | Run(kind: RunKind, blocks: seq<Block>)

  function Kind(line: Line): Option<RunKind> {
    if BlockStart(line) then Some(Blocks) else if PerNodeLine(line) then Some(Reports) else None
  }

  /** One line added to the segments before it. */
  function Step(segs: seq<Segment>, line: Line, last: bool): seq<Segment> {
    var n := |segs|;
    var inRun := n > 0 && segs[n - 1].Run? && segs[n - 1].blocks != [];
    if !BlockStart(line) && inRun && Continues(segs[n - 1].kind, line, last) then
      var bs := segs[n - 1].blocks;
      segs[n - 1 := Run(segs[n - 1].kind, bs[|bs| - 1 := bs[|bs| - 1] + [line]])]
    else
      match Kind(line)
      case None => segs + [Other(line)]
      case Some(kind) =>
        if inRun && segs[n - 1].kind == kind then segs[n - 1 := Run(kind, segs[n - 1].blocks + [[line]])]
        else segs + [Run(kind, [[line]])]
  }

  /** The lines added one by one; final says that the last of them ends the text. */
  function Fold(segs: seq<Segment>, lines: seq<Line>, final: bool): seq<Segment>
    decreases |lines|
  {
    if lines == [] then segs
    else Fold(Step(segs, lines[0], final && |lines| == 1), lines[1..], final)
  }

  function Segments(lines: seq<Line>): seq<Segment> {
    Fold([], lines, true)
  }

  function Concat(bs: seq<Block>): seq<Line> {
    if bs == [] then [] else bs[0] + Concat(bs[1..])
  }

  function LinesOf(s: Segment): seq<Line> {
    match s
    case Other(line) => [line]
    case Run(_, blocks) => Concat(blocks)
  }

  function Flatten(segs: seq<Segment>): seq<Line> {
    if segs == [] then [] else LinesOf(segs[0]) + Flatten(segs[1..])
  }

  function SortRun(s: Segment): Segment {
    match s
    case Other(_) => s
    case Run(kind, blocks) => Run(kind, Sort(blocks))
  }

  function SortRuns(segs: seq<Segment>): (r: seq<Segment>)
    ensures |r| == |segs|
  {
    seq(|segs|, i requires 0 <= i < |segs| => SortRun(segs[i]))
  }

  /** node_order_free on the lines of a text. */
  function Canonical(lines: seq<Line>): seq<Line> {
    Flatten(SortRuns(Segments(lines)))
  }

  // --- Segments and lines ---------------------------------------------------------------------

  lemma {:induction false} ConcatAppend(bs: seq<Block>, b: Block)
    ensures Concat(bs + [b]) == Concat(bs) + b
  {
    if bs == [] {
      assert [b][1..] == [];
    } else {
      ConcatAppend(bs[1..], b);
      assert (bs + [b])[1..] == bs[1..] + [b];
    }
  }

  lemma {:induction false} FlattenAppend(segs: seq<Segment>, more: seq<Segment>)
    ensures Flatten(segs + more) == Flatten(segs) + Flatten(more)
  {
    hide LinesOf;
    if segs == [] {
      assert segs + more == more;
    } else {
      FlattenAppend(segs[1..], more);
      var first, middle, last := LinesOf(segs[0]), Flatten(segs[1..]), Flatten(more);
      assert (segs + more)[0] == segs[0] && (segs + more)[1..] == segs[1..] + more;
      assert first + (middle + last) == first + middle + last;
    }
  }

  lemma {:induction false} FlattenLast(segs: seq<Segment>, s: Segment)
    ensures Flatten(segs + [s]) == Flatten(segs) + LinesOf(s)
  {
    FlattenAppend(segs, [s]);
    assert Flatten([s]) == LinesOf(s) + Flatten([s][1..]);
  }

  /** Replacing the last segment replaces its lines. */
  lemma {:induction false} FlattenReplaceLast(segs: seq<Segment>, s: Segment)
    requires segs != []
    ensures var front := segs[..|segs| - 1];
            && Flatten(segs) == Flatten(front) + LinesOf(segs[|segs| - 1])
            && Flatten(segs[|segs| - 1 := s]) == Flatten(front) + LinesOf(s)
  {
    var n := |segs| - 1;
    FlattenLast(segs[..n], segs[n]);
    FlattenLast(segs[..n], s);
    assert segs == segs[..n] + [segs[n]] && segs[n := s] == segs[..n] + [s];
  }

  lemma {:induction false} ConcatGrowLast(bs: seq<Block>, line: Line)
    requires bs != []
    ensures Concat(bs[|bs| - 1 := bs[|bs| - 1] + [line]]) == Concat(bs) + [line]
  {
    var m := |bs| - 1;
    ConcatAppend(bs[..m], bs[m]);
    ConcatAppend(bs[..m], bs[m] + [line]);
    assert bs == bs[..m] + [bs[m]] && bs[m := bs[m] + [line]] == bs[..m] + [bs[m] + [line]];
    assert Concat(bs[..m]) + (bs[m] + [line]) == Concat(bs[..m]) + bs[m] + [line];
  }

  lemma {:induction false} ConcatOne(line: Line)
    ensures Concat([[line]]) == [line]
  {
    assert [[line]][1..] == [];
  }

  lemma {:induction false} StepKeepsLines(segs: seq<Segment>, line: Line, last: bool)
    ensures Flatten(Step(segs, line, last)) == Flatten(segs) + [line]
  {
    hide Kind, BlockStart, Continues, Flatten, Concat;
    var n := |segs| - 1;
    var next := Step(segs, line, last);
    if |next| == |segs| {
      var bs := segs[n].blocks;
      FlattenReplaceLast(segs, next[n]);
      ConcatGrowLast(bs, line);
      ConcatAppend(bs, [line]);
      assert Flatten(segs[..n]) + (Concat(bs) + [line]) == Flatten(segs[..n]) + Concat(bs) + [line];
    } else {
      FlattenLast(segs, next[n + 1]);
      ConcatOne(line);
    }
  }

  lemma {:induction false} FoldKeepsLines(segs: seq<Segment>, lines: seq<Line>, final: bool)
    ensures Flatten(Fold(segs, lines, final)) == Flatten(segs) + lines
    decreases |lines|
  {
    hide Step;
    if lines != [] {
      StepKeepsLines(segs, lines[0], final && |lines| == 1);
      FoldKeepsLines(Step(segs, lines[0], final && |lines| == 1), lines[1..], final);
      assert Flatten(segs) + [lines[0]] + lines[1..] == Flatten(segs) + lines;
    }
  }

  lemma {:induction false} SortKeepsLines(bs: seq<Block>)
    ensures multiset(Concat(Sort(bs))) == multiset(Concat(bs))
  {
    if bs != [] {
      SortKeepsLines(bs[1..]);
      InsertKeepsLines(bs[0], Sort(bs[1..]));
    }
  }

  lemma {:induction false} InsertKeepsLines(b: Block, bs: seq<Block>)
    ensures multiset(Concat(Insert(b, bs))) == multiset(b) + multiset(Concat(bs))
  {
    if bs == [] {
      assert [b][1..] == [];
    } else if BlockLe(b, bs[0]) {
      assert ([b] + bs)[1..] == bs;
    } else {
      InsertKeepsLines(b, bs[1..]);
      assert ([bs[0]] + Insert(b, bs[1..]))[1..] == Insert(b, bs[1..]);
    }
  }

  lemma {:induction false} SortRunsKeepsLines(segs: seq<Segment>)
    ensures multiset(Flatten(SortRuns(segs))) == multiset(Flatten(segs))
  {
    if segs != [] {
      SortRunsKeepsLines(segs[1..]);
      assert SortRuns(segs)[1..] == SortRuns(segs[1..]);
      if segs[0].Run? {
        SortKeepsLines(segs[0].blocks);
      }
    }
  }

  /** The canonical form is a rearrangement of the lines. */
  lemma {:induction false} CanonicalPermutes(lines: seq<Line>)
    ensures multiset(Canonical(lines)) == multiset(lines)
  {
    FoldKeepsLines([], lines, true);
    assert Flatten([]) + lines == lines;
    SortRunsKeepsLines(Segments(lines));
  }

  // --- Segmenting the canonical form again -----------------------------------------------------------

  /** A first line of the kind, then lines that continue it. */
  predicate IsItem(kind: RunKind, b: Block) {
    b != [] && Starts(kind, b[0]) && forall i :: 1 <= i < |b| ==> IsTail(kind, b[i])
  }

  predicate IsTail(kind: RunKind, line: Line) {
    !BlockStart(line) && Continues(kind, line, false)
  }

  predicate GoodSegment(s: Segment) {
    match s
    case Other(line) => Kind(line) == None
    case Run(kind, bs) => bs != [] && forall i :: 0 <= i < |bs| ==> IsItem(kind, bs[i])
  }

  /** s may follow p: two runs differ in kind, and a lone line does not continue the run before it. */
  predicate MayFollow(p: Segment, s: Segment, last: bool) {
    p.Run? ==> if s.Run? then p.kind != s.kind else !Continues(p.kind, s.line, last)
  }

  predicate Good(segs: seq<Segment>, final: bool) {
    && (forall i :: 0 <= i < |segs| ==> GoodSegment(segs[i]))
    && (forall i, j :: 0 <= i && j == i + 1 < |segs| ==> MayFollow(segs[i], segs[j], final && j == |segs| - 1))
  }

  lemma {:induction false} StepIsGood(segs: seq<Segment>, line: Line, last: bool)
    requires Good(segs, false)
    ensures Good(Step(segs, line, last), last)
  {
    hide BlockStart, PerNodeLine;
    var next := Step(segs, line, last);
    forall i, j | 0 <= i && j == i + 1 < |next|
      ensures MayFollow(next[i], next[j], last && j == |next| - 1)
    {
      if j < |segs| {
        assert MayFollow(segs[i], segs[j], false);
      }
    }
  }

  lemma {:induction false} FoldIsGood(segs: seq<Segment>, lines: seq<Line>, final: bool)
    requires Good(segs, false)
    ensures lines != [] ==> Good(Fold(segs, lines, final), final)
    decreases |lines|
  {
    hide Step, Good;
    if lines != [] {
      StepIsGood(segs, lines[0], final && |lines| == 1);
      if |lines| == 1 {
        assert lines[1..] == [];
      } else {
        FoldIsGood(Step(segs, lines[0], false), lines[1..], final);
      }
    }
  }

  lemma {:induction false} FoldSplit(segs: seq<Segment>, a: seq<Line>, b: seq<Line>, final: bool)
    requires b != []
    ensures Fold(segs, a + b, final) == Fold(Fold(segs, a, false), b, final)
    decreases |a|
  {
    hide Step;
    if a == [] {
      assert a + b == b;
    } else {
      FoldSplit(Step(segs, a[0], false), a[1..], b, final);
      assert (a + b)[1..] == a[1..] + b;
    }
  }

  /** Lines that continue an item go to the end of it. */
  lemma {:induction false} FoldTail(pre: seq<Segment>, kind: RunKind, bs: seq<Block>, b: Block, tail: seq<Line>)
    requires forall i :: 0 <= i < |tail| ==> IsTail(kind, tail[i])
    ensures Fold(pre + [Run(kind, bs + [b])], tail, false) == pre + [Run(kind, bs + [b + tail])]
    decreases |tail|
  {
    hide BlockStart, PerNodeLine, Kind, Continues;
    if tail == [] {
      assert b + tail == b;
    } else {
      var segs := pre + [Run(kind, bs + [b])];
      assert IsTail(kind, tail[0]);
      var cur, grown := bs + [b], bs + [b + [tail[0]]];
      assert cur[|cur| - 1] == b && cur[|cur| - 1 := b + [tail[0]]] == grown;
      assert segs[|pre|] == Run(kind, cur) && segs[|pre| := Run(kind, grown)] == pre + [Run(kind, grown)];
      assert Step(segs, tail[0], false) == pre + [Run(kind, bs + [b + [tail[0]]])];
      FoldTail(pre, kind, bs, b + [tail[0]], tail[1..]);
      assert b + [tail[0]] + tail[1..] == b + tail;
    }
  }

  lemma {:induction false} StartOfItem(kind: RunKind, line: Line)
    requires Starts(kind, line)
    ensures Kind(line) == Some(kind)
    ensures BlockStart(line) || (!Continues(Reports, line, false) && !Continues(Blocks, line, false))
  {
    hide PerNodeLine, BlockStart;
    if kind == Reports {
      PerNodeLineIsNoTail(line);
    }
  }

  /** An item is added to a run of its kind. */
  lemma {:induction false} FoldItem(pre: seq<Segment>, kind: RunKind, bs: seq<Block>, b: Block)
    requires IsItem(kind, b)
    requires bs == [] ==> pre == [] || !pre[|pre| - 1].Run? || pre[|pre| - 1].kind != kind
    ensures var segs := if bs == [] then pre else pre + [Run(kind, bs)];
            Fold(segs, b, false) == pre + [Run(kind, bs + [b])]
  {
    hide PerNodeLine, BlockStart, Continues, Kind;
    var segs := if bs == [] then pre else pre + [Run(kind, bs)];
    StartOfItem(kind, b[0]);
    assert b == [b[0]] + b[1..];
    FoldTail(pre, kind, bs, [b[0]], b[1..]);
    var next := Run(kind, bs + [[b[0]]]);
    if bs == [] {
      assert [] + [[b[0]]] == [[b[0]]];
    } else {
      assert segs[|pre|] == Run(kind, bs) && segs[|pre| := next] == pre + [next];
    }
    assert Step(segs, b[0], false) == pre + [next];
  }

  lemma {:induction false} FoldRun(pre: seq<Segment>, kind: RunKind, bs: seq<Block>, more: seq<Block>)
    requires forall i :: 0 <= i < |more| ==> IsItem(kind, more[i])
    requires bs == [] ==> pre == [] || !pre[|pre| - 1].Run? || pre[|pre| - 1].kind != kind
    requires bs + more != []
    ensures var segs := if bs == [] then pre else pre + [Run(kind, bs)];
            Fold(segs, Concat(more), false) == pre + [Run(kind, bs + more)]
    decreases |more|
  {
    hide IsItem, Step;
    var segs := if bs == [] then pre else pre + [Run(kind, bs)];
    if more == [] {
      assert bs + more == bs;
    } else {
      FoldItem(pre, kind, bs, more[0]);
      assert bs + [more[0]] + more[1..] == bs + more;
      if more[1..] == [] {
        assert more == [more[0]] && Concat(more) == more[0] + Concat(more[1..]);
        assert more[0] + [] == more[0] && bs + [more[0]] == bs + more;
      } else {
        ConcatNotEmpty(kind, more[1..]);
        FoldSplit(segs, more[0], Concat(more[1..]), false);
        FoldRun(pre, kind, bs + [more[0]], more[1..]);
      }
    }
  }

  lemma {:induction false} ConcatNotEmpty(kind: RunKind, bs: seq<Block>)
    requires bs != [] && IsItem(kind, bs[0])
    ensures Concat(bs) != []
  {
  }

  lemma {:induction false} FlattenNotEmpty(segs: seq<Segment>)
    requires segs != [] && GoodSegment(segs[0])
    ensures Flatten(segs) != []
  {
    if segs[0].Run? {
      ConcatNotEmpty(segs[0].kind, segs[0].blocks);
    }
  }

  /** The lines of one good segment are segmented back into it. */
  lemma {:induction false} FoldSegment(pre: seq<Segment>, s: Segment, last: bool)
    requires GoodSegment(s) && (pre == [] || MayFollow(pre[|pre| - 1], s, last)) && (last ==> s.Other?)
    ensures Fold(pre, LinesOf(s), last) == pre + [s]
  {
    hide PerNodeLine, BlockStart, IsItem;
    match s
    case Run(kind, bs) =>
      FoldRun(pre, kind, [], bs);
      assert [] + bs == bs;
    case Other(line) =>
      assert [line][1..] == [];
      assert Step(pre, line, last) == pre + [Other(line)];
  }

  /** Good segments are what their lines are segmented into. */
  lemma {:induction false} FoldSegments(pre: seq<Segment>, segs: seq<Segment>, final: bool)
    requires segs != [] && Good(pre + segs, final) && (final ==> segs[|segs| - 1].Other?)
    ensures Fold(pre, Flatten(segs), final) == pre + segs
    decreases |segs|
  {
    hide Fold, GoodSegment, MayFollow, LinesOf;
    var s := segs[0];
    assert (pre + segs)[|pre|] == s;
    if pre != [] {
      assert MayFollow((pre + segs)[|pre| - 1], (pre + segs)[|pre|], final && |segs| == 1);
    }
    FoldSegment(pre, s, final && |segs| == 1);
    if |segs| == 1 {
      assert segs == [s] && Flatten(segs[1..]) == [];
      assert LinesOf(s) + [] == LinesOf(s);
    } else {
      assert (pre + segs)[|pre| + 1] == segs[1..][0];
      FlattenNotEmpty(segs[1..]);
      FoldSplit(pre, LinesOf(s), Flatten(segs[1..]), final);
      assert pre + [s] + segs[1..] == pre + segs;
      FoldSegments(pre + [s], segs[1..], final);
    }
  }

  lemma {:induction false} SortedItems(kind: RunKind, bs: seq<Block>)
    requires forall i :: 0 <= i < |bs| ==> IsItem(kind, bs[i])
    ensures |Sort(bs)| == |bs| && forall i :: 0 <= i < |Sort(bs)| ==> IsItem(kind, Sort(bs)[i])
  {
    hide IsItem;
    SortSorts(bs);
    assert |multiset(Sort(bs))| == |multiset(bs)|;
    forall i | 0 <= i < |Sort(bs)|
      ensures IsItem(kind, Sort(bs)[i])
    {
      assert Sort(bs)[i] in multiset(bs);
      var x :| 0 <= x < |bs| && bs[x] == Sort(bs)[i];
    }
  }

  lemma {:induction false} SortRunsIsGood(segs: seq<Segment>, final: bool)
    requires Good(segs, final)
    ensures Good(SortRuns(segs), final)
  {
    hide IsItem, Continues, Kind;
    var sorted := SortRuns(segs);
    forall i | 0 <= i < |sorted|
      ensures GoodSegment(sorted[i])
    {
      if segs[i].Run? {
        SortedItems(segs[i].kind, segs[i].blocks);
      }
    }
    forall i, j | 0 <= i && j == i + 1 < |sorted|
      ensures MayFollow(sorted[i], sorted[j], final && j == |sorted| - 1)
    {
      assert MayFollow(segs[i], segs[j], final && j == |segs| - 1);
    }
  }

  // --- Main results ------------------------------------------------------------------------------------

  /** The lines of a text that ends in a newline. */
  predicate Terminated(lines: seq<Line>) {
    lines != [] && lines[|lines| - 1] == ""
  }

  lemma {:induction false} TerminatedEndsInOther(lines: seq<Line>)
    requires Terminated(lines)
    ensures Segments(lines) != [] && Segments(lines)[|Segments(lines)| - 1] == Other("")
  {
    var n := |lines| - 1;
    assert lines == lines[..n] + [""];
    FoldSplit([], lines[..n], [""], true);
    var before := Fold([], lines[..n], false);
    EmptyLineIsPlain();
    assert [""][1..] == [];
    assert Step(before, "", true) == before + [Other("")];
  }

  lemma {:induction false} EmptyLineIsPlain()
    ensures Kind("") == None && !BlockStart("")
    ensures !Continues(Blocks, "", true) && !Continues(Reports, "", true)
  {
    if PerNodeLine("") {
      PerNodeLineIsNoTail("");
      assert false;
    }
  }

  /** The runs of the canonical form are the runs of the text, in the same order, each sorted. */
  lemma {:induction false} CanonicalKeepsRuns(lines: seq<Line>)
    requires Terminated(lines)
    ensures Segments(Canonical(lines)) == SortRuns(Segments(lines)) && Terminated(Canonical(lines))
  {
    hide Step, Kind, Sort;
    var segs := Segments(lines);
    FoldIsGood([], lines, true);
    TerminatedEndsInOther(lines);
    SortRunsIsGood(segs, true);
    var sorted := SortRuns(segs);
    assert [] + sorted == sorted;
    FoldSegments([], sorted, true);
    assert sorted == sorted[..|sorted| - 1] + [Other("")];
    FlattenLast(sorted[..|sorted| - 1], Other(""));
  }

  /** The canonical form of a canonical form is itself. */
  lemma {:induction false} CanonicalIsIdempotent(lines: seq<Line>)
    requires Terminated(lines)
    ensures Canonical(Canonical(lines)) == Canonical(lines)
  {
    hide Segments, Sort;
    CanonicalKeepsRuns(lines);
    var segs := Segments(lines);
    forall i | 0 <= i < |segs|
      ensures SortRun(SortRun(segs[i])) == SortRun(segs[i])
    {
      if segs[i].Run? {
        SortIsCanonical(segs[i].blocks, segs[i].blocks);
      }
    }
    assert SortRuns(SortRuns(segs)) == SortRuns(segs);
  }

  /** The same segments, but for the order of the items within each run. */
  ghost predicate SameButForOrder(a: seq<Segment>, b: seq<Segment>) {
    |a| == |b| && forall i :: 0 <= i < |a| ==> SameItems(a[i], b[i])
  }

  ghost predicate SameItems(a: Segment, b: Segment) {
    if a.Run? then b.Run? && a.kind == b.kind && multiset(a.blocks) == multiset(b.blocks) else a == b
  }

  lemma {:induction false} SameItemsSort(a: Segment, b: Segment)
    ensures SameItems(a, b) <==> SortRun(a) == SortRun(b)
  {
    hide Sort;
    if a.Run? && b.Run? {
      SortIsCanonical(a.blocks, b.blocks);
    }
  }

  /** Two texts agree in canonical form exactly when they differ only in the order of items within runs. */
  lemma {:induction false} CanonicalComparesUpToOrder(a: seq<Line>, b: seq<Line>)
    requires Terminated(a) && Terminated(b)
    ensures Canonical(a) == Canonical(b) <==> SameButForOrder(Segments(a), Segments(b))
  {
    hide Segments, Sort;
    CanonicalKeepsRuns(a);
    CanonicalKeepsRuns(b);
    var s, t := Segments(a), Segments(b);
    if SameButForOrder(s, t) {
      forall i | 0 <= i < |s|
        ensures SortRun(s[i]) == SortRun(t[i])
      {
        SameItemsSort(s[i], t[i]);
      }
      assert SortRuns(s) == SortRuns(t);
    }
    if Canonical(a) == Canonical(b) {
      forall i | 0 <= i < |s|
        ensures SameItems(s[i], t[i])
      {
        assert SortRuns(s)[i] == SortRuns(t)[i];
        SameItemsSort(s[i], t[i]);
      }
    }
  }

  // --- The loop of the source ----------------------------------------------------------------------------

  /** The run that is still open after some lines, and the segments before it. */
  function OpenRun(segs: seq<Segment>): Option<Segment> {
    if segs != [] && segs[|segs| - 1].Run? then Some(segs[|segs| - 1]) else None
  }

  function Finished(segs: seq<Segment>): seq<Segment> {
    if segs != [] && segs[|segs| - 1].Run? then segs[..|segs| - 1] else segs
  }

  /** What the loop holds: the finished segments' canonical lines, and the open run. */
  ghost predicate LoopState(segs: seq<Segment>, result: seq<Line>, run: seq<Block>, kind: Option<RunKind>) {
    && Good(segs, false)
    && result == Flatten(SortRuns(Finished(segs)))
    && match OpenRun(segs)
       case Some(s) => run == s.blocks && kind == Some(s.kind)
       case None => run == [] && kind == None
  }

  lemma {:induction false} FlattenFinished(segs: seq<Segment>)
    ensures Flatten(SortRuns(segs))
         == Flatten(SortRuns(Finished(segs))) + if OpenRun(segs).Some? then Concat(Sort(OpenRun(segs).value.blocks)) else []
  {
    if OpenRun(segs).Some? {
      var front := segs[..|segs| - 1];
      assert SortRuns(segs) == SortRuns(front) + [SortRun(segs[|segs| - 1])];
      FlattenLast(SortRuns(front), SortRun(segs[|segs| - 1]));
    }
  }

  lemma {:induction false} FlushRun(segs: seq<Segment>, result: seq<Line>, run: seq<Block>, kind: Option<RunKind>)
    requires LoopState(segs, result, run, kind)
    ensures result + Concat(Sort(run)) == Flatten(SortRuns(segs))
  {
    hide Good;
    FlattenFinished(segs);
  }

  /** A line that opens no item, once the run before it has been written out. */
  lemma {:induction false} AfterOther(segs: seq<Segment>, line: Line)
    ensures Flatten(SortRuns(Finished(segs + [Other(line)]))) == Flatten(SortRuns(segs)) + [line]
  {
    hide Sort;
    assert SortRuns(segs + [Other(line)]) == SortRuns(segs) + [Other(line)];
    FlattenLast(SortRuns(segs), Other(line));
  }

  /** node_order_free, after the split and before the join. */
  method NodeOrderFreeLines(lines: seq<Line>) returns (result: seq<Line>)
    ensures result == Canonical(lines)
  {
    hide LoopState, Step, Sort, Flatten, Concat, SortRuns;
    result := [];
    var run: seq<Block> := [];
    var kind: Option<RunKind> := None;
    ghost var segs: seq<Segment> := [];
    EmptyLoopState();
    for n := 0 to |lines|
      invariant segs == Fold([], lines[..n], n == |lines|)
      invariant n < |lines| ==> LoopState(segs, result, run, kind)
      invariant n == |lines| ==> result + Concat(Sort(run)) == Flatten(SortRuns(segs))
    {
      FoldOneMore(lines, n);
      ghost var next := Step(segs, lines[n], n == |lines| - 1);
      result, run, kind := OneLine(result, run, kind, lines[n], n == |lines| - 1, segs);
      segs := next;
    }
    assert lines[..|lines|] == lines;
    result := result + Concat(Sort(run));
  }

  /** One pass of the loop. */
  method OneLine(result: seq<Line>, run: seq<Block>, kind: Option<RunKind>, line: Line, last: bool, ghost segs: seq<Segment>)
      returns (result': seq<Line>, run': seq<Block>, kind': Option<RunKind>)
    requires LoopState(segs, result, run, kind)
    ensures !last ==> LoopState(Step(segs, line, last), result', run', kind')
    ensures last ==> result' + Concat(Sort(run')) == Flatten(SortRuns(Step(segs, line, last)))
  {
    hide BlockStart, PerNodeLine, Sort, Flatten, Good, SortRuns, Concat, Continues;
    ghost var next := Step(segs, line, last);
    RunsAreOpen(segs);
    StepIsGood(segs, line, last);
    FlushRun(segs, result, run, kind);
    result', run' := result, run;
    var starts: Option<RunKind> := None;
    if BlockStart(line) {
      starts := Some(Blocks);
    } else if run != [] && kind.Some? && Continues(kind.value, line, last) {
      run' := run[|run| - 1 := run[|run| - 1] + [line]];
      kind' := kind;
      assert Finished(next) == Finished(segs);
      Settle(next, result', run', kind', last);
      return;
    } else if PerNodeLine(line) {
      starts := Some(Reports);
    }
    if starts != kind {
      result' := result' + Concat(Sort(run));
      run' := [];
    }
    kind' := starts;
    if starts.None? {
      NoRunOpen(segs, result, run, kind);
      AfterOther(segs, line);
      result' := result' + [line];
    } else {
      run' := run' + [[line]];
      assert Finished(next) == if starts == kind then Finished(segs) else segs;
    }
    Settle(next, result', run', kind', last);
  }

  /** With no run open, everything is written out already. */
  lemma {:induction false} NoRunOpen(segs: seq<Segment>, result: seq<Line>, run: seq<Block>, kind: Option<RunKind>)
    requires LoopState(segs, result, run, kind)
    ensures kind == None ==> result == Flatten(SortRuns(segs))
  {
  }

  lemma {:induction false} EmptyLoopState()
    ensures LoopState([], [], [], None) && Concat(Sort([])) == [] && Flatten(SortRuns([])) == [] && SortRuns([]) == []
  {
  }

  lemma {:induction false} FoldOneMore(lines: seq<Line>, n: nat)
    requires n < |lines|
    ensures Fold([], lines[..n + 1], n + 1 == |lines|) == Step(Fold([], lines[..n], false), lines[n], n == |lines| - 1)
  {
    hide Step;
    assert lines[..n + 1] == lines[..n] + [lines[n]];
    FoldSplit([], lines[..n], [lines[n]], n + 1 == |lines|);
    assert [lines[n]][1..] == [];
  }

  lemma {:induction false} RunsAreOpen(segs: seq<Segment>)
    requires Good(segs, false)
    ensures OpenRun(segs).Some? ==> OpenRun(segs).value.blocks != []
  {
  }

  /** At the end of a pass the loop holds the segments again, or the text is finished. */
  lemma {:induction false} Settle(segs: seq<Segment>, result: seq<Line>, run: seq<Block>, kind: Option<RunKind>, last: bool)
    requires Good(segs, last) && result == Flatten(SortRuns(Finished(segs)))
    requires match OpenRun(segs) case Some(s) => run == s.blocks && kind == Some(s.kind) case None => run == [] && kind == None
    ensures !last ==> LoopState(segs, result, run, kind)
    ensures last ==> result + Concat(Sort(run)) == Flatten(SortRuns(segs))
  {
    hide Good;
    FlattenFinished(segs);
  }

  // --- Text -------------------------------------------------------------------------------------------

  /** split at newlines: one line more than there are newlines. */
  function Split(text: string): (lines: seq<Line>)
    ensures lines != [] && forall i :: 0 <= i < |lines| ==> '\n' !in lines[i]
  {
    if text == "" then [""]
    else
      var rest := Split(text[1..]);
      if text[0] == '\n' then [""] + rest else [[text[0]] + rest[0]] + rest[1..]
  }

  function Join(lines: seq<Line>): string {
    if lines == [] then "" else if |lines| == 1 then lines[0] else lines[0] + "\n" + Join(lines[1..])
  }

  lemma {:induction false} JoinSplit(text: string)
    ensures Join(Split(text)) == text
  {
    if text != "" {
      JoinSplit(text[1..]);
      var rest := Split(text[1..]);
      if text[0] == '\n' {
        assert ([""] + rest)[1..] == rest;
      } else {
        var lines := Split(text);
        assert lines[1..] == rest[1..];
        if |rest| > 1 {
          assert [text[0]] + rest[0] + "\n" + Join(rest[1..]) == [text[0]] + (rest[0] + "\n" + Join(rest[1..]));
        }
      }
      assert text == [text[0]] + text[1..];
    }
  }

  lemma {:induction false} SplitLine(line: Line, text: string)
    requires '\n' !in line
    ensures Split(line + "\n" + text) == [line] + Split(text)
    ensures Split(line) == [line]
    decreases |line|
  {
    if line == "" {
      assert line + "\n" + text == "\n" + text && ("\n" + text)[1..] == text;
    } else {
      SplitLine(line[1..], text);
      var whole := line + "\n" + text;
      assert whole[0] == line[0] && whole[1..] == line[1..] + "\n" + text;
      assert [line[0]] + line[1..] == line;
      assert ([line[1..]] + Split(text))[1..] == Split(text);
    }
  }

  lemma {:induction false} SplitJoin(lines: seq<Line>)
    requires lines != [] && forall i :: 0 <= i < |lines| ==> '\n' !in lines[i]
    ensures Split(Join(lines)) == lines
  {
    if |lines| == 1 {
      SplitLine(lines[0], "");
    } else {
      SplitJoin(lines[1..]);
      SplitLine(lines[0], Join(lines[1..]));
    }
  }

  lemma {:induction false} SplitTerminated(text: string)
    ensures Terminated(Split(text)) <==> text == "" || text[|text| - 1] == '\n'
  {
    if text != "" {
      SplitTerminated(text[1..]);
      var rest := Split(text[1..]);
      if |text| == 1 {
        assert text[1..] == "" && rest == [""];
      } else {
        assert text[1..][|text| - 2] == text[|text| - 1];
      }
    }
  }

  /** node_order_free */
  function NodeOrderFree(out: string): string {
    Join(Canonical(Split(out)))
  }

  method NodeOrderFreeText(out: string) returns (r: string)
    ensures r == NodeOrderFree(out)
  {
    var lines := NodeOrderFreeLines(Split(out));
    r := Join(lines);
  }

  predicate EndsInNewline(text: string) {
    text == "" || text[|text| - 1] == '\n'
  }

  lemma {:induction false} SplitOfResult(out: string)
    ensures Split(NodeOrderFree(out)) == Canonical(Split(out))
  {
    var lines := Split(out);
    var result := Canonical(lines);
    CanonicalPermutes(lines);
    assert |multiset(result)| == |multiset(lines)|;
    forall i | 0 <= i < |result|
      ensures '\n' !in result[i]
    {
      assert result[i] in multiset(lines);
      var x :| 0 <= x < |lines| && lines[x] == result[i];
    }
    SplitJoin(result);
  }

  /** On text that ends in a newline: the lines are kept, and applying it twice is applying it once. */
  lemma {:induction false} TextIsIdempotent(out: string)
    requires EndsInNewline(out)
    ensures NodeOrderFree(NodeOrderFree(out)) == NodeOrderFree(out)
    ensures multiset(Split(NodeOrderFree(out))) == multiset(Split(out))
  {
    hide Canonical, Join, Split;
    SplitOfResult(out);
    SplitTerminated(out);
    CanonicalIsIdempotent(Split(out));
    CanonicalPermutes(Split(out));
  }

  /** Two such texts are equal in canonical form exactly when they differ only in the order of items within runs. */
  lemma {:induction false} TextsAgreeUpToOrder(a: string, b: string)
    requires EndsInNewline(a) && EndsInNewline(b)
    ensures NodeOrderFree(a) == NodeOrderFree(b) <==> SameButForOrder(Segments(Split(a)), Segments(Split(b)))
  {
    hide Canonical, Join, Split, Segments;
    SplitTerminated(a);
    SplitTerminated(b);
    SplitOfResult(a);
    SplitOfResult(b);
    CanonicalComparesUpToOrder(Split(a), Split(b));
  }

  lemma {:induction false} AddItem(bs: seq<Block>, line: Line, last: bool)
    requires Starts(Reports, line)
    ensures Step(if bs == [] then [] else [Run(Reports, bs)], line, last) == [Run(Reports, bs + [[line]])]
  {
    hide PerNodeLine, BlockStart;
    StartOfItem(Reports, line);
    var next := Run(Reports, bs + [[line]]);
    assert [] + [next] == [next] && [] + [[line]] == [[line]];
    assert [Run(Reports, bs)][0 := next] == [next];
  }

  lemma {:induction false} AddBlank(bs: seq<Block>, b: Block)
    ensures Step([Run(Reports, bs + [b])], "", false) == [Run(Reports, bs + [b + [""]])]
  {
    hide PerNodeLine, BlockStart;
    EmptyLineIsPlain();
    var cur := bs + [b];
    assert cur[|cur| - 1 := b + [""]] == bs + [b + [""]];
  }

  lemma {:induction false} UnfoldFive(l: seq<Line>)
    requires |l| == 5
    ensures Segments(l) == Step(Step(Step(Step(Step([], l[0], false), l[1], false), l[2], false), l[3], false), l[4], true)
  {
    hide Step;
    var s1 := Step([], l[0], false);
    var s2 := Step(s1, l[1], false);
    var s3 := Step(s2, l[2], false);
    var s4 := Step(s3, l[3], false);
    assert l[1..][1..] == l[2..] && l[2..][1..] == l[3..] && l[3..][1..] == l[4..] && l[4..][1..] == [];
    assert Fold([], l, true) == Fold(s1, l[1..], true) == Fold(s2, l[2..], true);
    assert Fold(s2, l[2..], true) == Fold(s3, l[3..], true) == Fold(s4, l[4..], true);
    assert Fold(s4, l[4..], true) == Fold(Step(s4, l[4], true), l[4..][1..], true);
  }

  lemma {:induction false} TwoWithBlank(b: Line)
    requires Starts(Reports, b)
    ensures Step(Step(Step(Step([], b, false), "", false), b, false), "", false) == [Run(Reports, [[b, ""], [b, ""]])]
  {
    hide Step;
    AddItem([], b, false);
    assert [] + [[b]] == [[b]] && [b] + [""] == [b, ""] && [] + [[b, ""]] == [[b, ""]];
    AddBlank([], [b]);
    AddItem([[b, ""]], b, false);
    assert [[b, ""]] + [[b]] == [[b, ""], [b]] && [[b, ""]] + [[b, ""]] == [[b, ""], [b, ""]];
    AddBlank([[b, ""]], [b]);
  }

  /**
   Without the final newline it is not idempotent: an item's blank line that sorting moves to the
   end of the text is no longer taken as part of the item.
   */
  lemma {:induction false} UnterminatedIsNotIdempotent(a: Line, b: Line)
    requires Starts(Reports, a) && Starts(Reports, b) && a != b && LineLe(a, b)
    ensures Canonical([b, "", b, "", a]) == [a, b, "", b, ""]
    ensures Canonical([a, b, "", b, ""]) == [a, b, b, "", ""]
  {
    hide Step;
    LineOrder(a, b);
    var first, second := [b, "", b, "", a], [a, b, "", b, ""];
    UnfoldFive(first);
    TwoWithBlank(b);
    AddItem([[b, ""], [b, ""]], a, true);
    assert [[b, ""], [b, ""]] + [[a]] == [[b, ""], [b, ""], [a]];
    SortFirst(a, b);
    assert SortRuns([Run(Reports, [[b, ""], [b, ""], [a]])]) == [Run(Reports, [[a], [b, ""], [b, ""]])];
    ThreeItems([a], [b, ""], [b, ""]);
    FlattenLast([], Run(Reports, [[a], [b, ""], [b, ""]]));
    assert [] + [Run(Reports, [[a], [b, ""], [b, ""]])] == [Run(Reports, [[a], [b, ""], [b, ""]])];
    assert [a] + [b, ""] + [b, ""] == second;

    UnfoldFive(second);
    SecondSegments(a, b);
    SortSecond(a, b);
    assert SortRuns([Run(Reports, [[a], [b, ""], [b]]), Other("")]) == [Run(Reports, [[a], [b], [b, ""]]), Other("")];
    ThreeItems([a], [b], [b, ""]);
    FlattenLast([], Run(Reports, [[a], [b], [b, ""]]));
    FlattenLast([Run(Reports, [[a], [b], [b, ""]])], Other(""));
    assert [] + [Run(Reports, [[a], [b], [b, ""]])] == [Run(Reports, [[a], [b], [b, ""]])];
    assert [Run(Reports, [[a], [b], [b, ""]])] + [Other("")] == [Run(Reports, [[a], [b], [b, ""]]), Other("")];
  }

  lemma {:induction false} SecondSegments(a: Line, b: Line)
    requires Starts(Reports, a) && Starts(Reports, b)
    ensures Step(Step(Step(Step(Step([], a, false), b, false), "", false), b, false), "", true)
         == [Run(Reports, [[a], [b, ""], [b]]), Other("")]
  {
    AddItem([], a, false);
    assert [] + [[a]] == [[a]] && [[a]] + [[b]] == [[a], [b]];
    AddItem([[a]], b, false);
    AddBlank([[a]], [b]);
    assert [[a]] + [[b, ""]] == [[a], [b, ""]] && [b] + [""] == [b, ""];
    AddItem([[a], [b, ""]], b, false);
    var segs := [Run(Reports, [[a], [b, ""], [b]])];
    assert [[a], [b, ""]] + [[b]] == [[a], [b, ""], [b]];
    EmptyLineIsPlain();
    assert Step(segs, "", true) == segs + [Other("")];
  }

  lemma {:induction false} SortFirst(a: Line, b: Line)
    requires a != b && LineLe(a, b) && !LineLe(b, a)
    ensures Sort([[b, ""], [b, ""], [a]]) == [[a], [b, ""], [b, ""]]
  {
    BlockOrder([b, ""], [b, ""]);
    assert [[a]][1..] == [] && [[b, ""], [a]][1..] == [[a]] && [[b, ""], [b, ""], [a]][1..] == [[b, ""], [a]];
    assert Sort([[a]]) == [[a]];
    assert Insert([b, ""], [[a]]) == [[a]] + Insert([b, ""], []);
    assert [[a], [b, ""]][1..] == [[b, ""]];
    assert Insert([b, ""], [[a], [b, ""]]) == [[a]] + Insert([b, ""], [[b, ""]]);
  }

  lemma {:induction false} SortSecond(a: Line, b: Line)
    requires a != b && LineLe(a, b) && !LineLe(b, a)
    ensures Sort([[a], [b, ""], [b]]) == [[a], [b], [b, ""]]
  {
    assert [b, ""][1..] == [""] && [b][1..] == [];
    assert !BlockLe([b, ""], [b]) && BlockLe([b], [b, ""]);
    assert [[b]][1..] == [] && [[b, ""], [b]][1..] == [[b]] && [[a], [b, ""], [b]][1..] == [[b, ""], [b]];
    assert Sort([[b]]) == [[b]];
    assert Insert([b, ""], [[b]]) == [[b]] + Insert([b, ""], []);
    assert Insert([a], [[b], [b, ""]]) == [[a]] + [[b], [b, ""]];
  }

  lemma {:induction false} ThreeItems(x: Block, y: Block, z: Block)
    ensures Concat([x, y, z]) == x + y + z
  {
    assert [x, y, z][1..] == [y, z] && [y, z][1..] == [z] && [z][1..] == [];
    assert Concat([z]) == z + [] == z;
    assert Concat([y, z]) == y + z;
    assert x + (y + z) == x + y + z;
  }
}
