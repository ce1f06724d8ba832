/**
 node_order_free of bench/cligate.py on the text that the cluster manager prints: node blocks,
 backup pairs and per-node reports written out character by character.
 */
module NodeOrderText {
  import opened Bytes
  import opened NodeOrder
  import opened NodeOrderExact

  // --- The order, index by index ---------------------------------------------------------------

  /** a and b agree below index i, where a ends or has the smaller character. */
  ghost predicate FirstDifference(a: Line, b: Line, i: nat) {
    i <= |a| && i <= |b| && a[..i] == b[..i] && (i == |a| || (i < |b| && a[i] < b[i]))
  }

  lemma {:induction false} LineLeAt(a: Line, b: Line) returns (i: nat)
    requires LineLe(a, b)
    ensures FirstDifference(a, b, i)
  {
    if a == "" || a[0] < b[0] {
      i := 0;
    } else {
      i := LineLeAt(a[1..], b[1..]);
      assert a[..i + 1] == [a[0]] + a[1..][..i] && b[..i + 1] == [b[0]] + b[1..][..i];
      i := i + 1;
    }
  }

  lemma {:induction false} DifferenceOrders(a: Line, b: Line, i: nat)
    requires FirstDifference(a, b, i)
    ensures LineLe(a, b)
  {
    if i > 0 {
      assert a[0] == a[..i][0] == b[..i][0] == b[0];
      assert a[1..][..i - 1] == a[..i][1..] && b[1..][..i - 1] == b[..i][1..];
      DifferenceOrders(a[1..], b[1..], i - 1);
    }
  }

  /** Lines sort by their first different character, a prefix first; blocks by their first different line. */
  lemma {:induction false} SortOrderIsLexicographic(a: Line, b: Line, s: Block, t: Block, k: nat)
    requires k <= |s| && k <= |t| && s[..k] == t[..k]
    ensures LineLe(a, b) <==> exists i :: FirstDifference(a, b, i)
    ensures k == |s| ==> BlockLe(s, t)
    ensures k < |s| && k == |t| ==> !BlockLe(s, t)
    ensures k < |s| && k < |t| && s[k] != t[k] ==> (BlockLe(s, t) <==> LineLe(s[k], t[k]))
  {
    if LineLe(a, b) {
      var i := LineLeAt(a, b);
    }
    if exists i :: FirstDifference(a, b, i) {
      var i :| FirstDifference(a, b, i);
      DifferenceOrders(a, b, i);
    }
    SkipSameLines(s, t, k);
  }

  lemma {:induction false} SkipSameLines(s: Block, t: Block, k: nat)
    requires k <= |s| && k <= |t| && s[..k] == t[..k]
    ensures BlockLe(s, t) <==> BlockLe(s[k..], t[k..])
  {
    if k > 0 {
      assert s[0] == s[..k][0] == t[..k][0] == t[0];
      assert s[1..][..k - 1] == s[..k][1..] && t[1..][..k - 1] == t[..k][1..];
      SkipSameLines(s[1..], t[1..], k - 1);
      assert s[1..][k - 1..] == s[k..] && t[1..][k - 1..] == t[k..];
    } else {
      assert s[0..] == s && t[0..] == t;
    }
  }

  // --- What the manager prints --------------------------------------------------------------------

  datatype Head = Master | Slave | Sync

  function HeadText(h: Head): string {
    match h
    case Master => "M: "
    case Slave => "S: "
    case Sync => "SYNC sent to master"
  }

  datatype Tail = Indented(rest: string) | Transfer(rest: string)

  function TailText(t: Tail): Line {
    match t
    case Indented(rest) => "   " + rest
    case Transfer(rest) => "Transfer finished" + rest
  }

  /** A node's first line and the lines under it. */
  datatype NodeBlock = NodeBlock(head: Head, rest: string, tails: seq<Tail>)

  function BlockText(b: NodeBlock): Block {
    [HeadText(b.head) + b.rest] + seq(|b.tails|, i requires 0 <= i < |b.tails| => TailText(b.tails[i]))
  }

  /** A one-line report of a node; port is a number. */
  datatype Report =
    | Answer(host: string, port: string, rest: string)
    | Reply(host: string, port: string, rest: string)
    | TimeoutSet(rest: string)
    | TimeoutRefused(rest: string)
    | Warning(rest: string)
    | Saving(node: string, rest: string)

  function ReportText(r: Report): Line {
    match r
    case Answer(host, port, rest) => host + ":" + port + " (" + rest
    case Reply(host, port, rest) => host + ":" + port + ": " + rest
    case TimeoutSet(rest) => "*** New timeout set for " + rest
    case TimeoutRefused(rest) => "ERR setting node-timeout for " + rest
    case Warning(rest) => "[WARNING] Node " + rest
    case Saving(node, rest) => ">>> Node " + node + " -> Saving RDB" + rest
  }

  predicate Word(s: string) {
    s != "" && forall i :: 0 <= i < |s| ==> s[i] !in {' ', '\t', '\n', '\r', '\U{b}', '\U{c}'}
  }

  predicate Number(s: string) {
    s != "" && forall i :: 0 <= i < |s| ==> '0' <= s[i] <= '9'
  }

  predicate GoodReport(r: Report) {
    match r
    case Answer(host, port, _) => Word(host) && Number(port)
    case Reply(host, port, _) => Word(host) && Number(port)
    case Saving(node, _) => Word(node)
    case _ => true
  }

  ghost predicate IsReport(line: Line) {
    exists r :: GoodReport(r) && ReportText(r) == line
  }

  predicate IsHead(line: Line) {
    "M: " <= line || "S: " <= line || "SYNC sent to master" <= line
  }

  predicate IsUnder(line: Line) {
    "   " <= line || "Transfer finished" <= line
  }

  // --- The shapes are what the code looks for ------------------------------------------------------

  lemma {:induction false} AddressParts(line: Line, text: string) returns (host: string, port: string, rest: string)
    requires AddressThen(line, text)
    ensures Word(host) && Number(port) && line == host + ":" + port + text + rest
  {
    var i, j :| 0 < i < j <= |line| && line[i] == ':' && NoSpace(line[..i]) && NodeOrder.Digits(line[i + 1..j]) && text <= line[j..];
    host, port, rest := line[..i], line[i + 1..j], line[j + |text|..];
    assert line[j..] == text + rest;
    hide *;
    FourParts(line, i, j);
    FiveWays(host, port, text, rest);
  }

  lemma {:induction false} FourParts(line: Line, i: nat, j: nat)
    requires i < j <= |line| && line[i] == ':'
    ensures line == line[..i] + ":" + line[i + 1..j] + line[j..]
  {
  }

  lemma {:induction false} FiveWays(host: string, port: string, text: string, rest: string)
    ensures host + ":" + port + (text + rest) == host + ":" + port + text + rest
  {
  }

  lemma {:induction false} AddressMatches(host: string, port: string, text: string, rest: string)
    requires Word(host) && Number(port)
    ensures AddressThen(host + ":" + port + text + rest, text)
  {
    var line := host + ":" + port + text + rest;
    var i, j := |host|, |host| + 1 + |port|;
    assert line[..i] == host && line[i] == ':' && line[i + 1..j] == port && line[j..] == text + rest;
  }

  lemma {:induction false} SavingParts(line: Line, j: nat)
    requires ">>> Node " <= line && 9 < j <= |line| && NoSpace(line[9..j]) && " -> Saving RDB" <= line[j..]
    ensures IsReport(line)
  {
    var p, q := ">>> Node ", " -> Saving RDB";
    var node, rest := line[9..j], line[j + |q|..];
    var r := Saving(node, rest);
    assert GoodReport(r) && line[..9] == p && line[j..] == q + rest;
    assert ReportText(r) == line by {
      hide *;
      ThreeParts(line, 9, j);
      FourWays(p, node, q, rest);
    }
  }

  lemma {:induction false} ThreeParts(line: Line, i: nat, j: nat)
    requires i <= j <= |line|
    ensures line == line[..i] + line[i..j] + line[j..]
  {
  }

  lemma {:induction false} FourWays(p: string, node: string, q: string, rest: string)
    ensures p + node + (q + rest) == p + node + q + rest
  {
  }

  lemma {:induction false} MatchedIsReport(line: Line)
    requires PerNodeLine(line)
    ensures IsReport(line)
  {
    if AddressThen(line, " (") {
      var host, port, rest := AddressParts(line, " (");
      assert ReportText(Answer(host, port, rest)) == line && GoodReport(Answer(host, port, rest));
    } else if AddressThen(line, ": ") {
      var host, port, rest := AddressParts(line, ": ");
      assert ReportText(Reply(host, port, rest)) == line && GoodReport(Reply(host, port, rest));
    } else {
      hide AddressThen;
      FixedIsReport(line);
    }
  }

  lemma {:induction false} FixedIsReport(line: Line)
    requires PerNodeLine(line) && !AddressThen(line, " (") && !AddressThen(line, ": ")
    ensures IsReport(line)
  {
    hide AddressThen, NodeOrder.Digits;
    if StartsWith(line, "*** New timeout set for ") {
      var r := TimeoutSet(line[|"*** New timeout set for "|..]);
      assert ReportText(r) == line && GoodReport(r);
    } else if StartsWith(line, "ERR setting node-timeout for ") {
      var r := TimeoutRefused(line[|"ERR setting node-timeout for "|..]);
      assert ReportText(r) == line && GoodReport(r);
    } else if StartsWith(line, "[WARNING] Node ") {
      var r := Warning(line[|"[WARNING] Node "|..]);
      assert ReportText(r) == line && GoodReport(r);
    } else {
      var j :| 9 < j <= |line| && NoSpace(line[9..j]) && " -> Saving RDB" <= line[j..];
      SavingParts(line, j);
    }
  }

  lemma {:induction false} ReportIsMatched(r: Report)
    requires GoodReport(r)
    ensures PerNodeLine(ReportText(r))
  {
    hide AddressThen;
    match r
    case Answer(host, port, rest) => AddressMatches(host, port, " (", rest);
    case Reply(host, port, rest) => AddressMatches(host, port, ": ", rest);
    case Saving(node, rest) => SavingMatches(node, rest);
    case TimeoutSet(rest) => PrefixOf("*** New timeout set for ", rest);
    case TimeoutRefused(rest) => PrefixOf("ERR setting node-timeout for ", rest);
    case Warning(rest) => PrefixOf("[WARNING] Node ", rest);
  }

  lemma {:induction false} PrefixOf(p: string, rest: string)
    ensures StartsWith(p + rest, p)
  {
  }

  lemma {:induction false} SavingMatches(node: string, rest: string)
    requires Word(node)
    ensures PerNodeLine(">>> Node " + node + " -> Saving RDB" + rest)
  {
    hide AddressThen;
    var p, q := ">>> Node ", " -> Saving RDB";
    var line := p + node + q + rest;
    var j := 9 + |node|;
    assert line[..9] == p && line[9..j] == node && line[j..] == q + rest;
  }

  lemma {:induction false} FirstCharacters(line: Line)
    ensures IsHead(line) ==> line != "" && line[0] in {'M', 'S'}
    ensures IsUnder(line) ==> line != "" && line[0] in {' ', 'T'}
    ensures PerNodeLine(line) && !AddressThen(line, " (") && !AddressThen(line, ": ") ==> line != "" && line[0] in {'*', 'E', '[', '>'}
  {
    hide AddressThen, NoSpace;
  }

  /** No report starts like a block. */
  lemma {:induction false} ReportIsNoHead(line: Line)
    requires PerNodeLine(line)
    ensures !IsHead(line)
  {
    if AddressThen(line, " (") {
      AddressIsNoHead(line, " (");
    } else if AddressThen(line, ": ") {
      AddressIsNoHead(line, ": ");
    } else {
      hide PerNodeLine, IsHead;
      FirstCharacters(line);
    }
  }

  lemma {:induction false} AddressIsNoHead(line: Line, text: string)
    requires AddressThen(line, text)
    ensures !IsHead(line)
  {
    var i := ColonOf(line, text);
    hide *;
    if IsHead(line) {
      HeadCharacters(line);
      assert false;
    }
  }

  lemma {:induction false} ColonOf(line: Line, text: string) returns (i: nat)
    requires AddressThen(line, text)
    ensures 0 < i && i + 1 < |line| && line[i] == ':' && line[i + 1] != ' ' && forall k :: 0 <= k < i ==> line[k] != ' '
  {
    var x, y :| 0 < x < y <= |line| && line[x] == ':' && NoSpace(line[..x]) && NodeOrder.Digits(line[x + 1..y]) && text <= line[y..];
    i := x;
    assert forall k :: 0 <= k < x ==> line[k] == line[..x][k];
    assert line[x + 1] == line[x + 1..y][0];
  }

  lemma {:induction false} HeadCharacters(line: Line)
    requires IsHead(line)
    ensures |line| > 2
    ensures (line[1] == ':' && line[2] == ' ') || (|line| > 4 && line[1] == 'Y' && line[2] == 'N' && line[3] == 'C' && line[4] == ' ')
  {
    if "SYNC sent to master" <= line {
      var p := "SYNC sent to master";
      assert line[..|p|] == p && p[1] == 'Y' && p[2] == 'N' && p[3] == 'C' && p[4] == ' ';
    }
  }

  /** The code's own tests are these shapes, for every line. */
  lemma {:induction false} ShapesAreExact(line: Line)
    ensures BlockStart(line) <==> IsHead(line)
    ensures PerNodeLine(line) <==> IsReport(line)
    ensures Continues(Blocks, line, false) <==> IsUnder(line)
    ensures !(IsHead(line) && IsReport(line)) && !(IsHead(line) && IsUnder(line)) && !(IsReport(line) && IsUnder(line))
    ensures line == "" ==> !IsHead(line) && !IsReport(line) && !IsUnder(line)
  {
    hide PerNodeLine, ReportText, GoodReport;
    FirstCharacters(line);
    if PerNodeLine(line) {
      MatchedIsReport(line);
      ReportIsNoHead(line);
      PerNodeLineIsNoTail(line);
    }
    if IsReport(line) {
      var r :| GoodReport(r) && ReportText(r) == line;
      ReportIsMatched(r);
    }
  }

  // --- A printed text ---------------------------------------------------------------------------------

  /** A report and the blank lines after it. */
  datatype Item = Item(report: Report, blanks: nat)

  function ItemText(i: Item): Block {
    [ReportText(i.report)] + seq(i.blanks, _ => "")
  }

  /** A run of blocks, a run of reports, or a line of its own. */
  datatype Part = NodeBlocks(blocks: seq<NodeBlock>) | NodeReports(items: seq<Item>) | Plain(line: Line)

  function ItemsOf(p: Part): seq<Block> {
    match p
    case NodeBlocks(blocks) => seq(|blocks|, i requires 0 <= i < |blocks| => BlockText(blocks[i]))
    case NodeReports(items) => seq(|items|, i requires 0 <= i < |items| => ItemText(items[i]))
    case Plain(line) => [[line]]
  }

  /** The lines of the parts, one after the other. */
  function Lines(parts: seq<Part>): seq<Line> {
    if parts == [] then [] else Concat(ItemsOf(parts[0])) + Lines(parts[1..])
  }

  /** The same with every part in sorted order. */
  function SortedLines(parts: seq<Part>): seq<Line> {
    if parts == [] then [] else Concat(Sort(ItemsOf(parts[0]))) + SortedLines(parts[1..])
  }

  ghost predicate GoodPart(p: Part) {
    match p
    case NodeBlocks(blocks) => blocks != []
    case NodeReports(items) => items != [] && forall i :: 0 <= i < |items| ==> GoodReport(items[i].report)
    case Plain(line) => !IsHead(line) && !IsReport(line)
  }

  /** Runs are as long as they can be, and a line after a run does not belong to it. */
  predicate Adjacent(p: Part, q: Part, last: bool) {
    match p
    case NodeBlocks(_) => !q.NodeBlocks? && (q.Plain? ==> !IsUnder(q.line))
    case NodeReports(_) => !q.NodeReports? && (q.Plain? && q.line == "" ==> last)
    case Plain(_) => true
  }

  predicate EndsPlainly(p: Part) {
    p.NodeReports? && p.items != [] ==> p.items[|p.items| - 1].blanks == 0
  }

  /** A text as it is printed; one that ends in a newline has a last part Plain(""). */
  ghost predicate Printed(parts: seq<Part>) {
    && parts != [] && EndsPlainly(parts[|parts| - 1])
    && (forall i :: 0 <= i < |parts| ==> GoodPart(parts[i]))
    && (forall i, j :: 0 <= i && j == i + 1 < |parts| ==> Adjacent(parts[i], parts[j], j == |parts| - 1))
  }

  function SegmentOf(p: Part): Segment {
    match p
    case NodeBlocks(_) => Run(Blocks, ItemsOf(p))
    case NodeReports(_) => Run(Reports, ItemsOf(p))
    case Plain(line) => Other(line)
  }

  function SegmentsOf(parts: seq<Part>): (segs: seq<Segment>)
    ensures |segs| == |parts|
  {
    seq(|parts|, i requires 0 <= i < |parts| => SegmentOf(parts[i]))
  }

  lemma {:induction false} BlockIsItem(b: NodeBlock)
    ensures IsItem(Blocks, BlockText(b))
  {
    var lines := BlockText(b);
    forall i | 1 <= i < |lines|
      ensures IsTail(Blocks, lines[i])
    {
      assert lines[i] == TailText(b.tails[i - 1]);
      ShapesAreExact(lines[i]);
    }
    ShapesAreExact(lines[0]);
  }

  lemma {:induction false} ReportIsItem(i: Item)
    requires GoodReport(i.report)
    ensures IsItem(Reports, ItemText(i))
  {
    hide PerNodeLine, ReportText;
    ReportIsMatched(i.report);
    ReportIsNoHead(ReportText(i.report));
    assert forall k :: 1 <= k < |ItemText(i)| ==> ItemText(i)[k] == "";
  }

  lemma {:induction false} PartIsGood(p: Part)
    requires GoodPart(p)
    ensures GoodSegment(SegmentOf(p))
  {
    hide PerNodeLine, IsItem, BlockText, ItemText, IsReport;
    match p
    case NodeBlocks(blocks) =>
      forall i | 0 <= i < |blocks|
        ensures IsItem(Blocks, ItemsOf(p)[i])
      {
        BlockIsItem(blocks[i]);
      }
    case NodeReports(items) =>
      forall i | 0 <= i < |items|
        ensures IsItem(Reports, ItemsOf(p)[i])
      {
        ReportIsItem(items[i]);
      }
    case Plain(line) => ShapesAreExact(line);
  }

  lemma {:induction false} NeighboursMayFollow(p: Part, q: Part, last: bool)
    requires Adjacent(p, q, last)
    ensures MayFollow(SegmentOf(p), SegmentOf(q), last)
  {
    hide IsReport;
    if q.Plain? {
      ShapesAreExact(q.line);
    }
  }

  lemma {:induction false} PrintedIsGood(parts: seq<Part>)
    requires Printed(parts)
    ensures Good(SegmentsOf(parts), true)
  {
    hide GoodPart, GoodSegment, MayFollow, Adjacent, SegmentOf;
    var segs := SegmentsOf(parts);
    forall i | 0 <= i < |segs|
      ensures GoodSegment(segs[i])
    {
      PartIsGood(parts[i]);
    }
    forall i, j | 0 <= i && j == i + 1 < |segs|
      ensures MayFollow(segs[i], segs[j], true && j == |segs| - 1)
    {
      NeighboursMayFollow(parts[i], parts[j], j == |parts| - 1);
    }
  }

  lemma {:induction false} LinesAreFlattened(parts: seq<Part>)
    ensures Flatten(SegmentsOf(parts)) == Lines(parts) && Flatten(SortRuns(SegmentsOf(parts))) == SortedLines(parts)
  {
    hide Sort, Concat, ItemsOf;
    if parts != [] {
      LinesAreFlattened(parts[1..]);
      var segs := SegmentsOf(parts);
      assert segs[1..] == SegmentsOf(parts[1..]) && SortRuns(segs)[1..] == SortRuns(segs[1..]);
      PlainLines(parts[0]);
    }
  }

  lemma {:induction false} PlainLines(p: Part)
    ensures p.Plain? ==> Concat(ItemsOf(p)) == [p.line] && Concat(Sort(ItemsOf(p))) == [p.line]
  {
    if p.Plain? {
      ConcatOne(p.line);
      assert [[p.line]][1..] == [];
    }
  }

  lemma {:induction false} BlockEndsVisibly(b: NodeBlock)
    ensures !EndsBlank(BlockText(b))
  {
    var lines := BlockText(b);
    if b.tails != [] {
      assert lines[|lines| - 1] == TailText(b.tails[|b.tails| - 1]);
    }
  }

  lemma {:induction false} ReportEndsVisibly(i: Item)
    requires GoodReport(i.report) && i.blanks == 0
    ensures !EndsBlank(ItemText(i))
  {
    hide PerNodeLine, ReportText, GoodReport;
    ReportIsMatched(i.report);
    PerNodeLineIsNoTail(ReportText(i.report));
    assert ItemText(i) == [ReportText(i.report)];
  }

  lemma {:induction false} PartEndsVisibly(p: Part)
    requires GoodPart(p) && EndsPlainly(p)
    ensures var s := SegmentOf(p); s.Run? ==> s.blocks != [] && !EndsBlank(s.blocks[|s.blocks| - 1])
  {
    hide IsReport, BlockText, ItemText, EndsBlank;
    if p.NodeBlocks? {
      BlockEndsVisibly(p.blocks[|p.blocks| - 1]);
    } else if p.NodeReports? {
      ReportEndsVisibly(p.items[|p.items| - 1]);
    }
  }

  lemma {:induction false} CanonicalOfGood(segs: seq<Segment>)
    requires segs != [] && Good(segs, true)
    requires var s := segs[|segs| - 1]; s.Run? ==> s.blocks != [] && !EndsBlank(s.blocks[|s.blocks| - 1])
    ensures Canonical(Flatten(segs)) == Flatten(SortRuns(segs))
  {
    hide Good, EndsBlank, Flatten, Segments;
    FoundAgain(segs);
  }

  /** A printed text comes out with each run of blocks and each run of reports sorted, and every other line where it was. */
  lemma {:induction false} PrintedIsSorted(parts: seq<Part>)
    requires Printed(parts)
    ensures Canonical(Lines(parts)) == SortedLines(parts)
  {
    PrintedIsGood(parts);
    var segs := SegmentsOf(parts);
    var n := |parts| - 1;
    assert segs[n] == SegmentOf(parts[n]) && GoodPart(parts[n]) && EndsPlainly(parts[n]);
    hide *;
    PartEndsVisibly(parts[n]);
    CanonicalOfGood(segs);
    LinesAreFlattened(parts);
  }

  /** The same parts, but for the order of the blocks or reports within each. */
  ghost predicate Reordered(parts: seq<Part>, others: seq<Part>) {
    |parts| == |others| && forall i :: 0 <= i < |parts| ==> multiset(ItemsOf(parts[i])) == multiset(ItemsOf(others[i]))
  }

  lemma {:induction false} ReorderedSortsTheSame(parts: seq<Part>, others: seq<Part>)
    requires Reordered(parts, others)
    ensures SortedLines(parts) == SortedLines(others)
  {
    hide Sort, Concat, ItemsOf;
    if parts != [] {
      SortIsCanonical(ItemsOf(parts[0]), ItemsOf(others[0]));
      assert Reordered(parts[1..], others[1..]);
      ReorderedSortsTheSame(parts[1..], others[1..]);
    }
  }

  predicate OneLiners(lines: seq<Line>) {
    lines != [] && forall i :: 0 <= i < |lines| ==> '\n' !in lines[i]
  }

  /**
   On the printed text itself: whatever order the manager's tables gave the nodes, the result is
   the text with every run sorted.
   */
  lemma {:induction false} AnyNodeOrderGivesTheSortedText(parts: seq<Part>, others: seq<Part>)
    requires Printed(others) && Reordered(parts, others) && OneLiners(Lines(others))
    ensures NodeOrderFree(Join(Lines(others))) == Join(SortedLines(parts))
  {
    hide Printed, Canonical, Join, Split;
    SplitJoin(Lines(others));
    PrintedIsSorted(others);
    ReorderedSortsTheSame(parts, others);
  }

  // --- Lines that stay -----------------------------------------------------------------------------------

  /** A line of none of the shapes. */
  ghost predicate Unmarked(line: Line) {
    line != "" && !IsHead(line) && !IsUnder(line) && !IsReport(line)
  }

  lemma {:induction false} UnmarkedStandsAlone(segs: seq<Segment>, line: Line, last: bool)
    requires Unmarked(line)
    ensures Step(segs, line, last) == segs + [Other(line)]
  {
    hide PerNodeLine, IsReport;
    ShapesAreExact(line);
  }

  /** Segments that ended are not touched by later lines. */
  lemma {:induction false} StepAfter(pre: seq<Segment>, segs: seq<Segment>, line: Line, last: bool)
    requires pre != [] && pre[|pre| - 1].Other?
    ensures Step(pre + segs, line, last) == pre + Step(segs, line, last)
  {
    hide PerNodeLine, BlockStart, Continues;
    if segs == [] {
      assert pre + segs == pre;
      assert [] + [Other(line)] == [Other(line)];
    } else {
      assert (pre + segs)[|pre + segs| - 1] == segs[|segs| - 1];
    }
  }

  lemma {:induction false} FoldAfter(pre: seq<Segment>, segs: seq<Segment>, lines: seq<Line>, final: bool)
    requires pre != [] && pre[|pre| - 1].Other?
    ensures Fold(pre + segs, lines, final) == pre + Fold(segs, lines, final)
    decreases |lines|
  {
    hide Step;
    if lines != [] {
      StepAfter(pre, segs, lines[0], final && |lines| == 1);
      FoldAfter(pre, Step(segs, lines[0], final && |lines| == 1), lines[1..], final);
    }
  }

  /** An unmarked line splits the work: what follows it is treated as a text of its own, what precedes it is rearranged. */
  lemma {:induction false} UnmarkedSplits(a: seq<Line>, line: Line, b: seq<Line>) returns (front: seq<Line>)
    requires Unmarked(line)
    ensures Canonical(a + [line] + b) == front + [line] + Canonical(b)
    ensures multiset(front) == multiset(a) && |front| == |a|
  {
    hide Unmarked, Sort, Flatten, Segments, Fold;
    var segs := Fold([], a, false);
    front := Flatten(SortRuns(segs));
    SegmentsAfter(a, line, b);
    FlattenAround(segs, line, Segments(b));
    FoldKeepsLines([], a, false);
    EmptyText(a);
    SortRunsKeepsLines(segs);
    assert |multiset(front)| == |multiset(a)|;
  }

  lemma {:induction false} FlattenAround(segs: seq<Segment>, line: Line, more: seq<Segment>)
    ensures Flatten(SortRuns(segs + [Other(line)] + more)) == Flatten(SortRuns(segs)) + [line] + Flatten(SortRuns(more))
  {
    hide Sort, Flatten;
    assert SortRuns(segs + [Other(line)] + more) == SortRuns(segs) + [Other(line)] + SortRuns(more);
    FlattenAppend(SortRuns(segs) + [Other(line)], SortRuns(more));
    FlattenLast(SortRuns(segs), Other(line));
  }

  lemma {:induction false} EmptyText(a: seq<Line>)
    ensures Flatten([]) + a == a
  {
  }

  lemma {:induction false} SegmentsAfter(a: seq<Line>, line: Line, b: seq<Line>)
    requires Unmarked(line)
    ensures Segments(a + [line] + b) == Fold([], a, false) + [Other(line)] + Segments(b)
  {
    hide Unmarked, Step;
    var segs := Fold([], a, false);
    var done := segs + [Other(line)];
    FoldSplit([], a, [line] + b, true);
    assert a + [line] + b == a + ([line] + b);
    UnmarkedStandsAlone(segs, line, b == []);
    assert ([line] + b)[1..] == b && ([line] + b)[0] == line;
    FoldAfter(done, [], b, true);
    assert done + [] == done;
  }

  /** In any text, a line of none of the shapes stays at its place. */
  lemma {:induction false} UnmarkedKeepsItsPlace(out: string, k: nat)
    requires k < |Split(out)| && Unmarked(Split(out)[k])
    ensures k < |Split(NodeOrderFree(out))| && Split(NodeOrderFree(out))[k] == Split(out)[k]
  {
    hide Unmarked, Split, Canonical, NodeOrderFree;
    var lines := Split(out);
    SplitOfResult(out);
    Around(lines, k);
    hide *;
    var front := UnmarkedSplits(lines[..k], lines[k], lines[k + 1..]);
    Between(front, lines[k], Canonical(lines[k + 1..]));
  }

  lemma {:induction false} Around(lines: seq<Line>, k: nat)
    requires k < |lines|
    ensures lines[..k] + [lines[k]] + lines[k + 1..] == lines
  {
  }

  lemma {:induction false} Between(front: seq<Line>, line: Line, back: seq<Line>)
    ensures |front| < |front + [line] + back| && (front + [line] + back)[|front|] == line
  {
  }
}
