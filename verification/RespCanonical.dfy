/** What the parser accepts: every parsed reply is well formed and prints in no more bytes than it took. */
module RespCanonical {
  import opened Bytes
  import opened Resp
  import opened RespPrint

  lemma {:induction false} DigitsAreShortest(s: seq<Byte>)
    requires s != [] && AllDigits(s)
    ensures |Digits(DecimalValue(s))| <= |s|
  {
    if |s| > 1 {
      var body := s[..|s| - 1];
      DigitsAreShortest(body);
      var v, d := DecimalValue(body), s[|s| - 1] - 48;
      assert DecimalValue(s) / 10 == v && DecimalValue(s) % 10 == d;
    }
  }

  lemma {:induction false} PrintIntIsShortest(s: seq<Byte>)
    requires ParseInt64(s).Some?
    ensures |PrintInt(ParseInt64(s).value)| <= |s|
  {
    var body := if s[0] == PLUS || s[0] == MINUS then s[1..] else s;
    DigitsAreShortest(body);
  }

  /** A frame's tag and decimal header print in at most the bytes the header took. */
  lemma {:induction false} HeaderIsShortest(buf: seq<Byte>, tag: Byte)
    requires buf != [] && Header(buf).Value?
    ensures |Counted(tag, Header(buf).value)| <= Header(buf).used
    ensures Header(buf).value < 0 ==> |Counted(tag, -1)| <= Header(buf).used
  {
    var text := LineText(buf).value;
    PrintIntIsShortest(text);
    if Header(buf).value < 0 {
      var n := -Header(buf).value;
      assert |PrintInt(-1)| == 2 && |Digits(n)| >= 1;
    }
  }

  lemma {:induction false} LineIsOneLine(buf: seq<Byte>)
    requires buf != [] && LineText(buf).Value?
    ensures OneLine(LineText(buf).value)
  {
    var text := LineText(buf).value;
    forall i | 0 <= i < |text|
      ensures !CrlfAt(text, i)
    {
      assert !CrlfAt(buf, i + 1);
    }
  }

  /** r is well formed and prints in at most used bytes. */
  predicate FitsIn(r: Reply, used: nat, isFloat: FloatSyntax) {
    WellFormed(r, isFloat) && |Print(r)| <= used
  }

  predicate AllFitIn(rs: seq<Reply>, used: nat, isFloat: FloatSyntax) {
    AllWellFormed(rs, isFloat) && |PrintAll(rs)| <= used
  }

  lemma {:induction false} ConsFits(r: Reply, u: nat, rs: seq<Reply>, v: nat, isFloat: FloatSyntax)
    requires FitsIn(r, u, isFloat) && AllFitIn(rs, v, isFloat)
    ensures AllFitIn([r] + rs, u + v, isFloat)
  {
    assert ([r] + rs)[1..] == rs;
  }

  lemma {:induction false} PairUpFits(items: seq<Reply>, isFloat: FloatSyntax)
    requires |items| % 2 == 0 && AllWellFormed(items, isFloat)
    ensures PairsWellFormed(PairUp(items), isFloat) && PrintPairs(PairUp(items)) == PrintAll(items)
  {
    hide Print, WellFormed;
    if items != [] {
      assert items[1..][1..] == items[2..];
      PairUpFits(items[2..], isFloat);
      assert PairUp(items)[1..] == PairUp(items[2..]);
      assert PrintAll(items) == Print(items[0]) + (Print(items[1]) + PrintAll(items[2..]));
    }
  }

  lemma {:induction false} ItemsFit(buf: seq<Byte>, count: nat, isFloat: FloatSyntax)
    requires ParseItems(buf, count, isFloat).Value?
    ensures var p := ParseItems(buf, count, isFloat); AllFitIn(p.value, p.used, isFloat)
    decreases |buf|, 3, count
  {
    hide ParseReply, Print, WellFormed;
    if count > 0 {
      var p := ParseReply(buf, isFloat);
      ParsedFits(buf, isFloat);
      ItemsFit(buf[p.used..], count - 1, isFloat);
      var q := ParseItems(buf[p.used..], count - 1, isFloat);
      ConsFits(p.value, p.used, q.value, q.used, isFloat);
    }
  }

  lemma {:induction false} AggFits(buf: seq<Byte>, kind: AggKind, isFloat: FloatSyntax)
    requires buf != [] && AggReply(buf, kind, isFloat).Value?
    ensures var p := AggReply(buf, kind, isFloat); FitsIn(p.value, p.used, isFloat)
    decreases |buf|, 0
  {
    hide ParseItems, PrintAll, AllWellFormed, Header;
    var h := Header(buf);
    if h.value >= 0 {
      ItemsFit(buf[h.used..], h.value, isFloat);
      match kind
      case ArrayAgg => HeaderIsShortest(buf, 42);
      case SetAgg => HeaderIsShortest(buf, 126);
      case PushAgg => HeaderIsShortest(buf, 62);
    } else {
      HeaderIsShortest(buf, 36);
    }
  }

  lemma {:induction false} MapFits(buf: seq<Byte>, isFloat: FloatSyntax)
    requires buf != [] && MapReply(buf, isFloat).Value?
    ensures var p := MapReply(buf, isFloat); FitsIn(p.value, p.used, isFloat)
    decreases |buf|, 0
  {
    hide ParseItems, PrintAll, AllWellFormed, Header, PrintPairs, PairsWellFormed, PairUp;
    var h := Header(buf);
    ItemsFit(buf[h.used..], 2 * h.value, isFloat);
    var items := ParseItems(buf[h.used..], 2 * h.value, isFloat).value;
    assert [] + items == items;
    PairUpFits(items, isFloat);
    HeaderIsShortest(buf, 37);
  }

  lemma {:induction false} BlobFits(buf: seq<Byte>, isFloat: FloatSyntax)
    requires buf != []
    ensures BulkReply(buf, BulkBlob).Value? ==> FitsIn(BulkReply(buf, BulkBlob).value, BulkReply(buf, BulkBlob).used, isFloat)
    ensures BulkReply(buf, ErrorBlob).Value? ==> FitsIn(BulkReply(buf, ErrorBlob).value, BulkReply(buf, ErrorBlob).used, isFloat)
    ensures VerbatimReply(buf).Value? ==> FitsIn(VerbatimReply(buf).value, VerbatimReply(buf).used, isFloat)
  {
    hide Header, Counted, Payload;
    if Header(buf).Value? {
      HeaderIsShortest(buf, 36);
      HeaderIsShortest(buf, 33);
      HeaderIsShortest(buf, 61);
    }
  }

  lemma {:induction false} LeafFits(buf: seq<Byte>, isFloat: FloatSyntax)
    requires ParseReply(buf, isFloat).Value?
    requires buf[0] !in {42, 126, 62, 37, 124, 36, 33, 61}
    ensures var p := ParseReply(buf, isFloat); FitsIn(p.value, p.used, isFloat)
  {
    hide AggReply, MapEntries, PrintInt, ParseInt64;
    if buf[0] == 58 {
      HeaderIsShortest(buf, 58);
    } else if LineText(buf).Value? {
      LineIsOneLine(buf);
    }
  }

  lemma {:induction false} ParsedFits(buf: seq<Byte>, isFloat: FloatSyntax)
    requires ParseReply(buf, isFloat).Value?
    ensures var p := ParseReply(buf, isFloat); FitsIn(p.value, p.used, isFloat)
    decreases |buf|, 2
  {
    hide AggReply, MapEntries, BulkReply, VerbatimReply, Print, WellFormed;
    var tag := buf[0];
    if tag == 42 {
      AggFits(buf, ArrayAgg, isFloat);
    } else if tag == 126 {
      AggFits(buf, SetAgg, isFloat);
    } else if tag == 62 {
      AggFits(buf, PushAgg, isFloat);
    } else if tag == 37 {
      MapFits(buf, isFloat);
    } else if tag == 124 {
      ParsedFits(buf[MapEntries(buf, isFloat).used..], isFloat);
    } else if tag == 36 || tag == 33 || tag == 61 {
      BlobFits(buf, isFloat);
    } else {
      LeafFits(buf, isFloat);
    }
  }

  /**
   Printing a parsed reply gives its canonical frame: well formed, no longer than the bytes
   it came from, and parsed back to the same reply.
   */
  lemma {:induction false} ParsePrintParse(buf: seq<Byte>, rest: seq<Byte>, isFloat: FloatSyntax)
    requires ParseReply(buf, isFloat).Value? && |buf| <= MAX_INT
    ensures var p := ParseReply(buf, isFloat);
            WellFormed(p.value, isFloat) && |Print(p.value)| <= p.used
            && ParseReply(Print(p.value) + rest, isFloat) == Value(p.value, |Print(p.value)|)
  {
    ParsedFits(buf, isFloat);
    PrintedParses(ParseReply(buf, isFloat).value, rest, isFloat);
  }
}
