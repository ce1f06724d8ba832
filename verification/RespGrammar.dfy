/** The frames of RESP, as a grammar beside the parser: which byte strings spell a reply, in all their variants. */
module RespGrammar {
  import opened Bytes
  import opened Resp
  import opened RespPrint
  import opened RespCanonical

  // --- The grammar ------------------------------------------------------------------

  /** A decimal header as it is written: a sign, some zeros, and the digits of n. */
  datatype Number = Number(sign: seq<Byte>, zeros: nat, n: int)

  ghost predicate GoodNumber(x: Number) {
    MIN_INT <= x.n <= MAX_INT && Spells(Text(x), x.sign, x.zeros, x.n)
  }

  function Text(x: Number): seq<Byte> {
    x.sign + (Zeros(x.zeros) + Digits(if x.n < 0 then -x.n else x.n))
  }

  /** A frame with every choice that its writer has. */
  datatype Frame =
    | LineFrame(tag: Byte, text: seq<Byte>)
    | DoubleFrame(text: seq<Byte>)
    | BoolFrame(b: bool)
    | IntFrame(num: Number)
    | NullFrame
    | NilFrame(tag: Byte, num: Number)
    | BlobFrame(tag: Byte, num: Number, body: seq<Byte>, end: seq<Byte>)
    | ListFrame(tag: Byte, num: Number, items: seq<Frame>)
    | MapFrame(num: Number, items: seq<Frame>)
    | Attributed(num: Number, items: seq<Frame>, frame: Frame)

  function Render(f: Frame): seq<Byte>
    decreases f, 1
  {
    match f
    case LineFrame(tag, text) => Framed(tag, text)
    case DoubleFrame(text) => Framed(44, text)
    case BoolFrame(b) => Framed(35, [if b then 116 else 102])
    case IntFrame(num) => Framed(58, Text(num))
    case NullFrame => Framed(95, [])
    case NilFrame(tag, num) => Framed(tag, Text(num))
    case BlobFrame(tag, num, body, end) => Framed(tag, Text(num)) + body + end
    case ListFrame(tag, num, items) => Framed(tag, Text(num)) + RenderAll(items)
    case MapFrame(num, items) => Framed(37, Text(num)) + RenderAll(items)
    case Attributed(num, items, frame) => Framed(124, Text(num)) + RenderAll(items) + Render(frame)
  }

  function RenderAll(fs: seq<Frame>): seq<Byte>
    decreases fs, 0
  {
    if fs == [] then [] else Render(fs[0]) + RenderAll(fs[1..])
  }

  /** The side conditions: which tag takes which counts, and how long a body is. */
  ghost predicate Proper(f: Frame, isFloat: FloatSyntax)
    decreases f, 1
  {
    match f
    case LineFrame(tag, text) => tag in {43, 45, 40} && OneLine(text)
    case DoubleFrame(text) => OneLine(text) && isFloat(text)
    case BoolFrame(_) => true
    case IntFrame(num) => GoodNumber(num)
    case NullFrame => true
    case NilFrame(tag, num) => tag in {36, 33, 42, 126} && GoodNumber(num) && num.n < 0
    case BlobFrame(tag, num, body, end) =>
      && tag in {36, 33, 61} && GoodNumber(num) && num.n == |body| && |end| == 2
      && (tag == 61 ==> |body| >= 4 && body[3] == 58)
    case ListFrame(tag, num, items) =>
      tag in {42, 126, 62} && GoodNumber(num) && num.n == |items| && AllProper(items, isFloat)
    case MapFrame(num, items) => GoodNumber(num) && 2 * num.n == |items| && AllProper(items, isFloat)
    case Attributed(num, items, frame) =>
      GoodNumber(num) && 2 * num.n == |items| && AllProper(items, isFloat) && Proper(frame, isFloat)
  }

  ghost predicate AllProper(fs: seq<Frame>, isFloat: FloatSyntax)
    decreases fs, 0
  {
    fs == [] || (Proper(fs[0], isFloat) && AllProper(fs[1..], isFloat))
  }

  /** The reply that a frame stands for. */
  ghost function Meaning(f: Frame, isFloat: FloatSyntax): Reply
    requires Proper(f, isFloat)
    decreases f, 1
  {
    match f
    case LineFrame(tag, text) => if tag == 43 then Simple(text) else if tag == 45 then Error(text) else BigNumber(text)
    case DoubleFrame(text) => Double(text)
    case BoolFrame(b) => Boolean(b)
    case IntFrame(num) => Int(num.n)
    case NullFrame => Null
    case NilFrame(_, _) => Nil
    case BlobFrame(tag, _, body, _) =>
      if tag == 36 then Bulk(body) else if tag == 33 then BlobError(body) else Verbatim(body[..3], body[4..])
    case ListFrame(tag, _, items) =>
      var rs := Meanings(items, isFloat);
      if tag == 42 then Array(rs) else if tag == 126 then Set(rs) else Push(rs)
    case MapFrame(_, items) => Map(PairUp(Meanings(items, isFloat)))
    case Attributed(_, _, frame) => Meaning(frame, isFloat)
  }

  ghost function Meanings(fs: seq<Frame>, isFloat: FloatSyntax): (rs: seq<Reply>)
    requires AllProper(fs, isFloat)
    ensures |rs| == |fs|
    decreases fs, 0
  {
    if fs == [] then [] else [Meaning(fs[0], isFloat)] + Meanings(fs[1..], isFloat)
  }

  /** f is a proper frame that is written w and stands for r. */
  ghost predicate Derives(f: Frame, w: seq<Byte>, r: Reply, isFloat: FloatSyntax) {
    Proper(f, isFloat) && Render(f) == w && Meaning(f, isFloat) == r
  }

  ghost predicate AllDerive(fs: seq<Frame>, w: seq<Byte>, rs: seq<Reply>, isFloat: FloatSyntax) {
    AllProper(fs, isFloat) && RenderAll(fs) == w && Meanings(fs, isFloat) == rs
  }

  /** The bytes w spell the reply r. */
  ghost predicate SpellsReply(w: seq<Byte>, r: Reply, isFloat: FloatSyntax) {
    exists f :: Derives(f, w, r, isFloat)
  }

  // --- Headers ------------------------------------------------------------------------

  lemma {:induction false} TextIsOneLine(x: Number)
    requires GoodNumber(x)
    ensures OneLine(Text(x)) && ParseInt64(Text(x)) == Some(x.n)
  {
    SpelledIsParsed(Text(x), x.sign, x.zeros, x.n);
    var m := if x.n < 0 then -x.n else x.n;
    PaddedValue(x.zeros, m);
    assert CR !in Text(x);
  }

  lemma {:induction false} NumberParses(tag: Byte, x: Number, rest: seq<Byte>)
    requires GoodNumber(x)
    ensures Header(Framed(tag, Text(x)) + rest) == Value(x.n, |Framed(tag, Text(x))|)
  {
    hide Text, OneLine;
    TextIsOneLine(x);
    FramedParses(tag, Text(x), rest);
  }

  lemma {:induction false} LineIsFramed(buf: seq<Byte>)
    requires buf != [] && LineText(buf).Value?
    ensures var p := LineText(buf); OneLine(p.value) && buf[..p.used] == Framed(buf[0], p.value)
  {
    LineIsOneLine(buf);
  }

  lemma {:induction false} HeaderIsNumber(buf: seq<Byte>) returns (x: Number)
    requires buf != [] && Header(buf).Value?
    ensures GoodNumber(x) && x.n == Header(buf).value && buf[..Header(buf).used] == Framed(buf[0], Text(x))
  {
    hide Digits, Zeros, OneLine;
    var text := LineText(buf).value;
    LineIsFramed(buf);
    ParsedIsSpelled(text, Header(buf).value);
    var sign, zeros :| Spells(text, sign, zeros, Header(buf).value);
    x := Number(sign, zeros, Header(buf).value);
  }

  // --- Every derivation is parsed --------------------------------------------------------

  lemma {:induction false} BlobDerivationParses(tag: Byte, num: Number, body: seq<Byte>, end: seq<Byte>, rest: seq<Byte>)
    requires GoodNumber(num) && num.n == |body| && |end| == 2 && |Framed(tag, Text(num)) + body + end| <= MAX_INT
    ensures var head := Framed(tag, Text(num)); var buf := head + body + end + rest;
            Header(buf) == Value(|body|, |head|) && Payload(buf, |head|, |body|) == Value(body, |head + body + end|)
  {
    hide Header, Framed, GoodNumber;
    var head := Framed(tag, Text(num));
    var buf := head + body + end + rest;
    assert buf == head + (body + end + rest);
    NumberParses(tag, num, body + end + rest);
    assert buf[|head|..|head| + |body|] == body;
  }

  lemma {:induction false} LeafDerivationParses(f: Frame, rest: seq<Byte>, isFloat: FloatSyntax)
    requires !f.ListFrame? && !f.MapFrame? && !f.Attributed? && !f.BlobFrame?
    requires Proper(f, isFloat)
    ensures ParseReply(Render(f) + rest, isFloat) == Value(Meaning(f, isFloat), |Render(f)|)
  {
    hide MapEntries, ParseItems, RenderAll, AllProper, Header, LineText, Payload, GoodNumber, Text;
    match f
    case LineFrame(tag, text) => FramedParses(tag, text, rest);
    case DoubleFrame(text) => FramedParses(44, text, rest);
    case BoolFrame(b) => FramedParses(35, [if b then 116 else 102], rest);
    case NullFrame =>
    case IntFrame(num) => NumberParses(58, num, rest);
    case NilFrame(tag, num) => NumberParses(tag, num, rest);
  }

  lemma {:induction false} BlobDerivation(f: Frame, rest: seq<Byte>, isFloat: FloatSyntax)
    requires f.BlobFrame? && Proper(f, isFloat) && |Render(f)| <= MAX_INT
    ensures ParseReply(Render(f) + rest, isFloat) == Value(Meaning(f, isFloat), |Render(f)|)
  {
    hide MapEntries, AggReply, Header, LineText, Payload, GoodNumber, Text;
    BlobDerivationParses(f.tag, f.num, f.body, f.end, rest);
  }

  lemma {:induction false} AllDerivationsParse(fs: seq<Frame>, rest: seq<Byte>, isFloat: FloatSyntax)
    requires AllProper(fs, isFloat) && |RenderAll(fs)| <= MAX_INT
    ensures ParseItems(RenderAll(fs) + rest, |fs|, isFloat) == Value(Meanings(fs, isFloat), |RenderAll(fs)|)
    decreases fs, 0
  {
    hide ParseReply, Render, Proper, Meaning;
    if fs != [] {
      var tail := RenderAll(fs[1..]) + rest;
      assert RenderAll(fs) + rest == Render(fs[0]) + tail;
      DerivationParses(fs[0], tail, isFloat);
      ItemsCons(Meaning(fs[0], isFloat), Render(fs[0]), tail, |fs|, isFloat);
      AllDerivationsParse(fs[1..], rest, isFloat);
    }
  }

  lemma {:induction false} ListDerivation(f: Frame, rest: seq<Byte>, isFloat: FloatSyntax)
    requires f.ListFrame? && Proper(f, isFloat) && |Render(f)| <= MAX_INT
    ensures ParseReply(Render(f) + rest, isFloat) == Value(Meaning(f, isFloat), |Render(f)|)
    decreases f, 0
  {
    hide ParseItems, RenderAll, AllProper, Meanings, Header, GoodNumber, Text, MapEntries;
    var head, body := Framed(f.tag, Text(f.num)), RenderAll(f.items) + rest;
    var buf := Render(f) + rest;
    assert buf == head + body;
    NumberParses(f.tag, f.num, body);
    assert buf[|head|..] == body && buf[0] == f.tag;
    AllDerivationsParse(f.items, rest, isFloat);
  }

  /** The entries of a map or attribute frame. */
  lemma {:induction false} EntriesDerivation(tag: Byte, num: Number, fs: seq<Frame>, rest: seq<Byte>, isFloat: FloatSyntax)
    requires GoodNumber(num) && 2 * num.n == |fs| && AllProper(fs, isFloat)
    requires |Framed(tag, Text(num)) + RenderAll(fs)| <= MAX_INT
    ensures var w := Framed(tag, Text(num)) + RenderAll(fs);
            MapEntries(w + rest, isFloat) == Value(Meanings(fs, isFloat), |w|)
    decreases fs, 1
  {
    hide ParseItems, RenderAll, AllProper, Meanings, Header, GoodNumber, Text;
    var head, body := Framed(tag, Text(num)), RenderAll(fs) + rest;
    var buf := head + RenderAll(fs) + rest;
    assert buf == head + body;
    NumberParses(tag, num, body);
    assert buf[|head|..] == body;
    AllDerivationsParse(fs, rest, isFloat);
    assert [] + Meanings(fs, isFloat) == Meanings(fs, isFloat);
  }

  lemma {:induction false} MapDerivation(f: Frame, rest: seq<Byte>, isFloat: FloatSyntax)
    requires f.MapFrame? && Proper(f, isFloat) && |Render(f)| <= MAX_INT
    ensures ParseReply(Render(f) + rest, isFloat) == Value(Meaning(f, isFloat), |Render(f)|)
    decreases f, 0
  {
    hide RenderAll, AllProper, Meanings, GoodNumber, Text, MapEntries;
    EntriesDerivation(37, f.num, f.items, rest, isFloat);
    assert (Render(f) + rest)[0] == 37;
  }

  lemma {:induction false} AttributedDerivation(f: Frame, rest: seq<Byte>, isFloat: FloatSyntax)
    requires f.Attributed? && Proper(f, isFloat) && |Render(f)| <= MAX_INT
    ensures ParseReply(Render(f) + rest, isFloat) == Value(Meaning(f, isFloat), |Render(f)|)
    decreases f, 0
  {
    hide RenderAll, AllProper, Meanings, GoodNumber, Text, MapEntries;
    var attr := Framed(124, Text(f.num)) + RenderAll(f.items);
    var tail := Render(f.frame) + rest;
    var buf := Render(f) + rest;
    assert buf == attr + tail;
    EntriesDerivation(124, f.num, f.items, tail, isFloat);
    assert buf[|attr|..] == tail && buf[0] == 124;
    DerivationParses(f.frame, rest, isFloat);
  }

  /** Whatever follows it, a proper frame is parsed to its meaning and takes exactly its own bytes. */
  lemma {:induction false} DerivationParses(f: Frame, rest: seq<Byte>, isFloat: FloatSyntax)
    requires Proper(f, isFloat) && |Render(f)| <= MAX_INT
    ensures ParseReply(Render(f) + rest, isFloat) == Value(Meaning(f, isFloat), |Render(f)|)
    decreases f, 1
  {
    hide ParseReply, Render, Proper, Meaning;
    match f
    case BlobFrame(_, _, _, _) => BlobDerivation(f, rest, isFloat);
    case ListFrame(_, _, _) => ListDerivation(f, rest, isFloat);
    case MapFrame(_, _) => MapDerivation(f, rest, isFloat);
    case Attributed(_, _, _) => AttributedDerivation(f, rest, isFloat);
    case _ => LeafDerivationParses(f, rest, isFloat);
  }

  // --- Every parse has a derivation -------------------------------------------------------

  lemma {:induction false} ConsDerives(f: Frame, w: seq<Byte>, r: Reply, fs: seq<Frame>, v: seq<Byte>, rs: seq<Reply>, isFloat: FloatSyntax)
    requires Derives(f, w, r, isFloat) && AllDerive(fs, v, rs, isFloat)
    ensures AllDerive([f] + fs, w + v, [r] + rs, isFloat)
  {
    hide Proper, Render, Meaning;
    assert ([f] + fs)[1..] == fs;
  }

  lemma {:induction false} ItemsDerive(buf: seq<Byte>, count: nat, isFloat: FloatSyntax) returns (fs: seq<Frame>)
    requires ParseItems(buf, count, isFloat).Value?
    ensures var p := ParseItems(buf, count, isFloat); AllDerive(fs, buf[..p.used], p.value, isFloat) && |fs| == count
    decreases |buf|, 3, count
  {
    hide ParseReply, Derives, AllDerive;
    if count == 0 {
      fs := [];
      NothingDerives(isFloat);
      assert buf[..0] == [];
    } else {
      var p := ParseReply(buf, isFloat);
      var f := ParseDerives(buf, isFloat);
      var q := ParseItems(buf[p.used..], count - 1, isFloat);
      var more := ItemsDerive(buf[p.used..], count - 1, isFloat);
      ConsDerives(f, buf[..p.used], p.value, more, buf[p.used..][..q.used], q.value, isFloat);
      fs := [f] + more;
      assert buf[..p.used] + buf[p.used..][..q.used] == buf[..p.used + q.used];
    }
  }

  lemma {:induction false} NothingDerives(isFloat: FloatSyntax)
    ensures AllDerive([], [], [], isFloat)
  {
  }

  lemma {:induction false} LeafDerives(buf: seq<Byte>, isFloat: FloatSyntax) returns (f: Frame)
    requires ParseReply(buf, isFloat).Value?
    requires buf[0] !in {42, 126, 62, 37, 124, 36, 33, 61}
    ensures var p := ParseReply(buf, isFloat); Derives(f, buf[..p.used], p.value, isFloat)
  {
    hide AggReply, MapEntries, ParseInt64, GoodNumber, Text, OneLine, LineText;
    if buf[0] == 58 {
      var x := HeaderIsNumber(buf);
      f := IntFrame(x);
    } else if buf[0] == 95 {
      f := NullFrame;
      assert buf[..3] == Framed(95, []);
    } else {
      LineIsFramed(buf);
      var text := LineText(buf).value;
      f := if buf[0] == 44 then DoubleFrame(text) else if buf[0] == 35 then BoolFrame(text == [116]) else LineFrame(buf[0], text);
    }
  }

  lemma {:induction false} BlobDerives(buf: seq<Byte>, isFloat: FloatSyntax) returns (f: Frame)
    requires ParseReply(buf, isFloat).Value? && buf[0] in {36, 33, 61}
    ensures var p := ParseReply(buf, isFloat); Derives(f, buf[..p.used], p.value, isFloat)
  {
    hide AggReply, MapEntries, Header, Payload, GoodNumber, Text, Framed;
    var x := HeaderIsNumber(buf);
    var start, p := Header(buf).used, ParseReply(buf, isFloat);
    if x.n < 0 {
      f := NilFrame(buf[0], x);
    } else {
      var body := Payload(buf, start, x.n).value;
      f := BlobFrame(buf[0], x, body, buf[start + x.n..start + x.n + 2]);
      assert buf[..start] + body + f.end == buf[..p.used];
    }
  }

  lemma {:induction false} ListDerives(buf: seq<Byte>, isFloat: FloatSyntax) returns (f: Frame)
    requires ParseReply(buf, isFloat).Value? && buf[0] in {42, 126, 62}
    ensures var p := ParseReply(buf, isFloat); Derives(f, buf[..p.used], p.value, isFloat)
    decreases |buf|, 0
  {
    hide ParseItems, MapEntries, Header, GoodNumber, Text, Framed, AllProper, RenderAll, Meanings;
    var x := HeaderIsNumber(buf);
    var start := Header(buf).used;
    if x.n < 0 {
      f := NilFrame(buf[0], x);
    } else {
      var rest := buf[start..];
      var items := ItemsDerive(rest, x.n, isFloat);
      f := ListFrame(buf[0], x, items);
      var used := ParseItems(rest, x.n, isFloat).used;
      assert buf[..start] + rest[..used] == buf[..start + used];
    }
  }

  lemma {:induction false} EntriesDerive(buf: seq<Byte>, isFloat: FloatSyntax) returns (x: Number, fs: seq<Frame>)
    requires buf != [] && MapEntries(buf, isFloat).Value?
    ensures var p := MapEntries(buf, isFloat);
            && GoodNumber(x) && 2 * x.n == |fs| && AllProper(fs, isFloat) && Meanings(fs, isFloat) == p.value
            && Framed(buf[0], Text(x)) + RenderAll(fs) == buf[..p.used]
    decreases |buf|, 0
  {
    hide ParseItems, Header, GoodNumber, Text, Framed, AllProper, RenderAll, Meanings;
    x := HeaderIsNumber(buf);
    var start := Header(buf).used;
    var rest := buf[start..];
    fs := ItemsDerive(rest, 2 * x.n, isFloat);
    var p := ParseItems(rest, 2 * x.n, isFloat);
    assert buf[..start] + rest[..p.used] == buf[..start + p.used];
    assert [] + p.value == p.value;
  }

  /** Every parse is explained by a frame that is written exactly as the bytes it took. */
  lemma {:induction false} ParseDerives(buf: seq<Byte>, isFloat: FloatSyntax) returns (f: Frame)
    requires ParseReply(buf, isFloat).Value?
    ensures var p := ParseReply(buf, isFloat); Derives(f, buf[..p.used], p.value, isFloat)
    decreases |buf|, 2
  {
    if buf[0] in {36, 33, 61} {
      f := BlobDerives(buf, isFloat);
    } else if buf[0] in {42, 126, 62} {
      f := ListDerives(buf, isFloat);
    } else if buf[0] == 37 {
      hide MapEntries, GoodNumber, Text, AllProper, RenderAll, Meanings, PairUp;
      var x, fs := EntriesDerive(buf, isFloat);
      f := MapFrame(x, fs);
    } else if buf[0] == 124 {
      f := AttributedDerives(buf, isFloat);
    } else {
      f := LeafDerives(buf, isFloat);
    }
  }

  lemma {:induction false} AttributedDerives(buf: seq<Byte>, isFloat: FloatSyntax) returns (f: Frame)
    requires ParseReply(buf, isFloat).Value? && buf[0] == 124
    ensures var p := ParseReply(buf, isFloat); Derives(f, buf[..p.used], p.value, isFloat)
    decreases |buf|, 1
  {
    hide MapEntries, GoodNumber, Text, AllProper, RenderAll, Meanings, Framed, Derives;
    var x, fs := EntriesDerive(buf, isFloat);
    var used := MapEntries(buf, isFloat).used;
    var tail := buf[used..];
    var inner := ParseDerives(tail, isFloat);
    f := Attributed(x, fs, inner);
    var p := ParseReply(tail, isFloat);
    AttributesDerive(x, fs, inner, buf[..used], tail[..p.used], p.value, isFloat);
    assert buf[..used] + tail[..p.used] == buf[..used + p.used];
  }

  lemma {:induction false} AttributesDerive(x: Number, fs: seq<Frame>, f: Frame, attr: seq<Byte>, w: seq<Byte>, r: Reply,
                                            isFloat: FloatSyntax)
    requires GoodNumber(x) && 2 * x.n == |fs| && AllProper(fs, isFloat) && Framed(124, Text(x)) + RenderAll(fs) == attr
    requires Derives(f, w, r, isFloat)
    ensures Derives(Attributed(x, fs, f), attr + w, r, isFloat)
  {
  }

  // --- The parser is the grammar ----------------------------------------------------------

  /** A buffer parses to r and u bytes exactly when its first u bytes spell r. */
  lemma {:induction false} ParserIsTheGrammar(buf: seq<Byte>, r: Reply, u: nat, isFloat: FloatSyntax)
    requires |buf| <= MAX_INT
    ensures ParseReply(buf, isFloat) == Value(r, u) <==> u <= |buf| && SpellsReply(buf[..u], r, isFloat)
  {
    hide ParseReply, Derives;
    if ParseReply(buf, isFloat) == Value(r, u) {
      var f := ParseDerives(buf, isFloat);
    }
    if u <= |buf| && SpellsReply(buf[..u], r, isFloat) {
      SpelledParses(buf, r, u, isFloat);
    }
  }

  lemma {:induction false} SpelledParses(buf: seq<Byte>, r: Reply, u: nat, isFloat: FloatSyntax)
    requires u <= |buf| <= MAX_INT && SpellsReply(buf[..u], r, isFloat)
    ensures ParseReply(buf, isFloat) == Value(r, u)
  {
    hide ParseReply, Proper, Render, Meaning;
    var f :| Derives(f, buf[..u], r, isFloat);
    DerivationParses(f, buf[u..], isFloat);
    assert buf[..u] + buf[u..] == buf;
  }

  /** No byte string spells two replies, and no spelling is a proper prefix of another: frames delimit themselves. */
  lemma {:induction false} SpellingsDelimitThemselves(w: seq<Byte>, more: seq<Byte>, r: Reply, s: Reply, isFloat: FloatSyntax)
    requires |w + more| <= MAX_INT && SpellsReply(w, r, isFloat) && SpellsReply(w + more, s, isFloat)
    ensures more == [] && r == s
  {
    hide SpellsReply;
    var buf := w + more;
    assert buf[..|w|] == w && buf[..|buf|] == buf;
    ParserIsTheGrammar(buf, r, |w|, isFloat);
    ParserIsTheGrammar(buf, s, |buf|, isFloat);
  }

  /** Every negative count, however it is written, is nil after '$', '!', '*' and '~'. */
  lemma {:induction false} NegativeCountIsNil(tag: Byte, x: Number, rest: seq<Byte>, isFloat: FloatSyntax)
    requires tag in {36, 33, 42, 126} && GoodNumber(x) && x.n < 0
    ensures ParseReply(Framed(tag, Text(x)) + rest, isFloat) == Value(Nil, |Framed(tag, Text(x))|)
  {
    hide ParseReply, GoodNumber, Text;
    var f := NilFrame(tag, x);
    assert Proper(f, isFloat) && Meaning(f, isFloat) == Nil;
    LeafDerivationParses(f, rest, isFloat);
  }

  /** After '>', '%' and '|' it is an error. */
  lemma {:induction false} NegativeCountIsMalformed(tag: Byte, x: Number, rest: seq<Byte>, isFloat: FloatSyntax)
    requires tag in {62, 37, 124} && GoodNumber(x) && x.n < 0
    ensures ParseReply(Framed(tag, Text(x)) + rest, isFloat).Malformed?
  {
    hide ParseItems, Header, GoodNumber, Text;
    NumberParses(tag, x, rest);
    var buf := Framed(tag, Text(x)) + rest;
    assert buf[0] == tag && MapEntries(buf, isFloat).Malformed? && AggReply(buf, PushAgg, isFloat).Malformed?;
  }
}
