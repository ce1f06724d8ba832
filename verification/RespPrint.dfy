/** A RESP2/RESP3 printer, and the parser as its inverse. */
module RespPrint {
  import opened Bytes
  import opened Resp

  // --- The printer ------------------------------------------------------------

  function Framed(tag: Byte, text: seq<Byte>): seq<Byte> {
    [tag] + text + CRLF
  }

  function Counted(tag: Byte, n: int): seq<Byte> {
    Framed(tag, PrintInt(n))
  }

  function Print(r: Reply): seq<Byte>
    decreases r, 1
  {
    match r
    case Simple(s) => Framed(43, s)
    case Error(s) => Framed(45, s)
    case BigNumber(s) => Framed(40, s)
    case Double(text) => Framed(44, text)
    case Boolean(b) => Framed(35, [if b then 116 else 102])
    case Null => Framed(95, [])
    case Int(n) => Counted(58, n)
    case Nil => Counted(36, -1)
    case Bulk(s) => Counted(36, |s|) + s + CRLF
    case BlobError(s) => Counted(33, |s|) + s + CRLF
    case Verbatim(format, s) => Counted(61, |format| + 1 + |s|) + format + [58] + s + CRLF
    case Array(items) => Counted(42, |items|) + PrintAll(items)
    case Set(items) => Counted(126, |items|) + PrintAll(items)
    case Push(items) => Counted(62, |items|) + PrintAll(items)
    case Map(pairs) => Counted(37, |pairs|) + PrintPairs(pairs)
  }

  function PrintAll(rs: seq<Reply>): seq<Byte>
    decreases rs, 0
  {
    if rs == [] then [] else Print(rs[0]) + PrintAll(rs[1..])
  }

  function PrintPair(p: Pair): seq<Byte>
    decreases p, 2
  {
    Print(p.key) + Print(p.val)
  }

  function PrintPairs(ps: seq<Pair>): seq<Byte>
    decreases ps, 0
  {
    if ps == [] then [] else PrintPair(ps[0]) + PrintPairs(ps[1..])
  }

  /** A leading attribute frame. */
  function PrintAttribute(ps: seq<Pair>): seq<Byte> {
    Counted(124, |ps|) + PrintPairs(ps)
  }

  function PrintAttributes(attrs: seq<seq<Pair>>): seq<Byte> {
    if attrs == [] then [] else PrintAttribute(attrs[0]) + PrintAttributes(attrs[1..])
  }

  predicate OneLine(s: seq<Byte>) {
    forall i :: 0 <= i < |s| ==> !CrlfAt(s, i)
  }

  /** The replies RESP can carry: one-line texts, 64-bit integers, accepted doubles, 3-byte formats. */
  predicate WellFormed(r: Reply, isFloat: FloatSyntax)
    decreases r, 1
  {
    match r
    case Simple(s) => OneLine(s)
    case Error(s) => OneLine(s)
    case BigNumber(s) => OneLine(s)
    case Double(text) => OneLine(text) && isFloat(text)
    case Int(n) => MIN_INT <= n <= MAX_INT
    case Verbatim(format, _) => |format| == 3
    case Array(items) => AllWellFormed(items, isFloat)
    case Set(items) => AllWellFormed(items, isFloat)
    case Push(items) => AllWellFormed(items, isFloat)
    case Map(pairs) => PairsWellFormed(pairs, isFloat)
    case _ => true
  }

  predicate AllWellFormed(rs: seq<Reply>, isFloat: FloatSyntax)
    decreases rs, 0
  {
    rs == [] || (WellFormed(rs[0], isFloat) && AllWellFormed(rs[1..], isFloat))
  }

  predicate PairWellFormed(p: Pair, isFloat: FloatSyntax)
    decreases p, 2
  {
    WellFormed(p.key, isFloat) && WellFormed(p.val, isFloat)
  }

  predicate PairsWellFormed(ps: seq<Pair>, isFloat: FloatSyntax)
    decreases ps, 0
  {
    ps == [] || (PairWellFormed(ps[0], isFloat) && PairsWellFormed(ps[1..], isFloat))
  }

  // --- One frame ----------------------------------------------------------------

  lemma {:induction false} FramedParses(tag: Byte, text: seq<Byte>, rest: seq<Byte>)
    requires OneLine(text)
    ensures LineText(Framed(tag, text) + rest) == Value(text, |text| + 3)
  {
    var buf := Framed(tag, text) + rest;
    assert CrlfAt(buf, |text| + 1);
    forall i: nat | 1 <= i <= |text|
      ensures !CrlfAt(buf, i)
    {
      assert !CrlfAt(text, i - 1);
      assert buf[i] == text[i - 1];
    }
    var eol := FindCrlf(buf, 1);
    assert !(0 <= eol <= |text|) && !(eol > |text| + 1);
    assert buf[1..eol] == text;
  }

  lemma {:induction false} CountedParses(tag: Byte, n: int, rest: seq<Byte>)
    requires MIN_INT <= n <= MAX_INT
    ensures Header(Counted(tag, n) + rest) == Value(n, |Counted(tag, n)|)
  {
    PrintIntParses(n);
    PrintIntHasNoCr(n);
    FramedParses(tag, PrintInt(n), rest);
  }

  /** A length-prefixed payload comes back whole, whatever bytes it holds. */
  lemma {:induction false} BlobParses(tag: Byte, s: seq<Byte>, rest: seq<Byte>)
    requires |Counted(tag, |s|) + s + CRLF| <= MAX_INT
    ensures var buf := Counted(tag, |s|) + s + CRLF + rest;
            Header(buf) == Value(|s|, |Counted(tag, |s|)|)
            && Payload(buf, |Counted(tag, |s|)|, |s|) == Value(s, |Counted(tag, |s|) + s + CRLF|)
  {
    hide Header, Counted;
    var head := Counted(tag, |s|);
    var buf := head + s + CRLF + rest;
    assert buf == head + (s + CRLF + rest);
    CountedParses(tag, |s|, s + CRLF + rest);
    assert buf[|head|..|head| + |s|] == s;
  }

  // --- Parsing what was printed ----------------------------------------------------

  function Flatten(ps: seq<Pair>): (rs: seq<Reply>)
    ensures |rs| == 2 * |ps|
  {
    if ps == [] then [] else [ps[0].key, ps[0].val] + Flatten(ps[1..])
  }

  lemma {:induction false} PairUpFlatten(ps: seq<Pair>)
    ensures PairUp(Flatten(ps)) == ps
  {
    if ps != [] {
      PairUpFlatten(ps[1..]);
      var rs := Flatten(ps);
      assert rs[2..] == Flatten(ps[1..]);
      forall i | 0 <= i < |ps|
        ensures PairUp(rs)[i] == ps[i]
      {
        if i > 0 {
          assert PairUp(rs[2..])[i - 1] == ps[1..][i - 1];
        }
      }
    }
  }

  lemma {:induction false} ItemsCons(r: Reply, w: seq<Byte>, tail: seq<Byte>, count: nat, isFloat: FloatSyntax)
    requires count > 0 && ParseReply(w + tail, isFloat) == Value(r, |w|)
    ensures ParseItems(w + tail, count, isFloat) == Resume([r], |w|, ParseItems(tail, count - 1, isFloat))
  {
    hide ParseReply;
    assert (w + tail)[|w|..] == tail;
  }

  lemma {:induction false} PrintedAllParse(rs: seq<Reply>, rest: seq<Byte>, isFloat: FloatSyntax)
    requires AllWellFormed(rs, isFloat) && |PrintAll(rs)| <= MAX_INT
    ensures ParseItems(PrintAll(rs) + rest, |rs|, isFloat) == Value(rs, |PrintAll(rs)|)
    decreases rs, 0
  {
    hide ParseReply, Print, WellFormed;
    if rs == [] {
    } else {
      var tail := PrintAll(rs[1..]) + rest;
      assert PrintAll(rs) + rest == Print(rs[0]) + tail;
      PrintedParses(rs[0], tail, isFloat);
      ItemsCons(rs[0], Print(rs[0]), tail, |rs|, isFloat);
      PrintedAllParse(rs[1..], rest, isFloat);
      assert [rs[0]] + rs[1..] == rs;
    }
  }

  lemma {:induction false} PrintedPairParses(p: Pair, tail: seq<Byte>, count: nat, isFloat: FloatSyntax)
    requires count >= 2 && PairWellFormed(p, isFloat) && |PrintPair(p)| <= MAX_INT
    ensures ParseItems(PrintPair(p) + tail, count, isFloat)
         == Resume([p.key, p.val], |PrintPair(p)|, ParseItems(tail, count - 2, isFloat))
    decreases p, 2
  {
    hide ParseReply, ParseItems, Print, WellFormed;
    assert PrintPair(p) + tail == Print(p.key) + (Print(p.val) + tail);
    PrintedParses(p.key, Print(p.val) + tail, isFloat);
    PrintedParses(p.val, tail, isFloat);
    ItemsCons(p.key, Print(p.key), Print(p.val) + tail, count, isFloat);
    ItemsCons(p.val, Print(p.val), tail, count - 1, isFloat);
    var after := ParseItems(tail, count - 2, isFloat);
    if after.Value? {
      assert [p.key] + ([p.val] + after.value) == [p.key, p.val] + after.value;
    }
  }

  lemma {:induction false} PrintedPairsParse(ps: seq<Pair>, rest: seq<Byte>, isFloat: FloatSyntax)
    requires PairsWellFormed(ps, isFloat) && |PrintPairs(ps)| <= MAX_INT
    ensures ParseItems(PrintPairs(ps) + rest, 2 * |ps|, isFloat) == Value(Flatten(ps), |PrintPairs(ps)|)
    decreases ps, 0
  {
    hide ParseReply, Print, WellFormed;
    if ps != [] {
      var tail := PrintPairs(ps[1..]) + rest;
      assert PrintPairs(ps) + rest == PrintPair(ps[0]) + tail;
      PrintedPairParses(ps[0], tail, 2 * |ps|, isFloat);
      PrintedPairsParse(ps[1..], rest, isFloat);
    }
  }

  lemma {:induction false} PrintedAggParses(tag: Byte, kind: AggKind, items: seq<Reply>, rest: seq<Byte>,
                                            isFloat: FloatSyntax)
    requires AllWellFormed(items, isFloat) && |Counted(tag, |items|) + PrintAll(items)| <= MAX_INT
    requires |items| <= MAX_INT
    ensures var w := Counted(tag, |items|) + PrintAll(items);
            AggReply(w + rest, kind, isFloat) == Value(AggOf(kind, items), |w|)
    decreases items, 1
  {
    hide ParseItems, PrintAll, AllWellFormed, Header;
    var head, body := Counted(tag, |items|), PrintAll(items) + rest;
    var buf := Counted(tag, |items|) + PrintAll(items) + rest;
    assert buf == head + body;
    CountedParses(tag, |items|, body);
    assert buf[|head|..] == body;
    PrintedAllParse(items, rest, isFloat);
  }

  lemma {:induction false} PrintedEntriesParse(tag: Byte, ps: seq<Pair>, rest: seq<Byte>, isFloat: FloatSyntax)
    requires PairsWellFormed(ps, isFloat) && |Counted(tag, |ps|) + PrintPairs(ps)| <= MAX_INT
    requires |ps| <= MAX_INT
    ensures var w := Counted(tag, |ps|) + PrintPairs(ps);
            MapEntries(w + rest, isFloat) == Value(Flatten(ps), |w|)
    decreases ps, 1
  {
    hide ParseItems, PrintPairs, PairsWellFormed, Header, Flatten;
    var head, body := Counted(tag, |ps|), PrintPairs(ps) + rest;
    var buf := Counted(tag, |ps|) + PrintPairs(ps) + rest;
    assert buf == head + body;
    CountedParses(tag, |ps|, body);
    assert buf[|head|..] == body;
    PrintedPairsParse(ps, rest, isFloat);
    assert [] + Flatten(ps) == Flatten(ps);
  }

  lemma {:induction false} PrintedLength(rs: seq<Reply>)
    ensures |rs| <= |PrintAll(rs)|
  {
    if rs != [] {
      PrintedLength(rs[1..]);
    }
  }

  lemma {:induction false} PrintedPairsLength(ps: seq<Pair>)
    ensures |ps| <= |PrintPairs(ps)|
  {
    if ps != [] {
      PrintedPairsLength(ps[1..]);
      assert |Print(ps[0].key)| > 0;
    }
  }

  lemma {:induction false} PrintedVerbatimParses(format: seq<Byte>, s: seq<Byte>, rest: seq<Byte>)
    requires |format| == 3 && |Print(Verbatim(format, s))| <= MAX_INT
    ensures VerbatimReply(Print(Verbatim(format, s)) + rest)
         == Value(Verbatim(format, s), |Print(Verbatim(format, s))|)
  {
    hide Header, Payload;
    var body := format + [58] + s;
    assert Print(Verbatim(format, s)) == Counted(61, |body|) + body + CRLF;
    BlobParses(61, body, rest);
    assert body[..3] == format && body[4..] == s;
  }

  lemma {:induction false} PrintedLeafParses(r: Reply, rest: seq<Byte>, isFloat: FloatSyntax)
    requires !r.Verbatim? && !r.Array? && !r.Set? && !r.Push? && !r.Map?
    requires WellFormed(r, isFloat) && |Print(r)| <= MAX_INT
    ensures ParseReply(Print(r) + rest, isFloat) == Value(r, |Print(r)|)
  {
    hide AggReply, MapEntries, PrintAll, PrintPairs, Header, LineText, Payload;
    match r
    case Simple(s) => FramedParses(43, s, rest);
    case Error(s) => FramedParses(45, s, rest);
    case BigNumber(s) => FramedParses(40, s, rest);
    case Double(text) => FramedParses(44, text, rest);
    case Boolean(b) => FramedParses(35, [if b then 116 else 102], rest);
    case Null =>
    case Int(n) => CountedParses(58, n, rest);
    case Nil => CountedParses(36, -1, rest);
    case Bulk(s) => BlobParses(36, s, rest);
    case BlobError(s) => BlobParses(33, s, rest);
  }

  /** Parsing a printed reply gives that reply and consumes exactly its bytes. */
  lemma {:induction false} PrintedParses(r: Reply, rest: seq<Byte>, isFloat: FloatSyntax)
    requires WellFormed(r, isFloat) && |Print(r)| <= MAX_INT
    ensures ParseReply(Print(r) + rest, isFloat) == Value(r, |Print(r)|)
    decreases r, 1
  {
    hide AggReply, MapEntries, PrintAll, PrintPairs, Header, LineText, VerbatimReply, BulkReply, NullReply;
    match r
    case Verbatim(format, s) => PrintedVerbatimParses(format, s, rest);
    case Array(items) => PrintedLength(items); PrintedAggParses(42, ArrayAgg, items, rest, isFloat);
    case Set(items) => PrintedLength(items); PrintedAggParses(126, SetAgg, items, rest, isFloat);
    case Push(items) => PrintedLength(items); PrintedAggParses(62, PushAgg, items, rest, isFloat);
    case Map(pairs) =>
      PrintedPairsLength(pairs);
      PrintedEntriesParse(37, pairs, rest, isFloat);
      PairUpFlatten(pairs);
    case _ => PrintedLeafParses(r, rest, isFloat);
  }

  predicate AttributesWellFormed(attrs: seq<seq<Pair>>, isFloat: FloatSyntax) {
    forall i :: 0 <= i < |attrs| ==> PairsWellFormed(attrs[i], isFloat)
  }

  /** Leading attribute frames are consumed and change nothing else. */
  lemma {:induction false} AttributesAreTransparent(attrs: seq<seq<Pair>>, r: Reply, rest: seq<Byte>,
                                                    isFloat: FloatSyntax)
    requires AttributesWellFormed(attrs, isFloat) && WellFormed(r, isFloat)
    requires |PrintAttributes(attrs) + Print(r)| <= MAX_INT
    ensures ParseReply(PrintAttributes(attrs) + Print(r) + rest, isFloat)
         == Value(r, |PrintAttributes(attrs) + Print(r)|)
  {
    hide Print, WellFormed, MapEntries, PrintPairs, PairsWellFormed;
    if attrs == [] {
      PrintedParses(r, rest, isFloat);
      assert PrintAttributes(attrs) + Print(r) == Print(r);
    } else {
      var head := PrintAttribute(attrs[0]);
      var tail := PrintAttributes(attrs[1..]) + Print(r) + rest;
      var buf := PrintAttributes(attrs) + Print(r) + rest;
      assert buf == head + tail;
      PrintedPairsLength(attrs[0]);
      PrintedEntriesParse(124, attrs[0], tail, isFloat);
      AttributesAreTransparent(attrs[1..], r, rest, isFloat);
      assert buf[|head|..] == tail;
      assert buf[0] == 124;
    }
  }
}
