/** Exactly which buffers make the reply parser panic, and exactly which are malformed, however deep the fault lies. */
module RespFaults {
  import opened Bytes
  import opened Resp
  import opened RespGrammar
  import opened RespPrint

  // --- One payload --------------------------------------------------------------------

  /** The wrapped sums pass the length test and fail the slice bounds exactly when the true sum does not fit an int. */
  lemma {:induction false} PayloadPanicsExactlyOnOverflow(buf: seq<Byte>, start: nat, n: nat)
    requires start <= |buf| <= MAX_INT && n <= MAX_INT
    ensures Payload(buf, start, n).Panic? <==> start + n + 2 > MAX_INT
  {
  }

  predicate IsBlobTag(tag: Byte) {
    tag == 36 || tag == 33 || tag == 61
  }

  predicate IsListTag(tag: Byte) {
    tag == 42 || tag == 126 || tag == 62
  }

  predicate IsPairTag(tag: Byte) {
    tag == 37 || tag == 124
  }

  /** buf starts with a bulk, blob error or verbatim header that declares a payload ending past the largest int. */
  predicate Oversized(buf: seq<Byte>) {
    && buf != [] && IsBlobTag(buf[0]) && Header(buf).Value?
    && Header(buf).value >= (if buf[0] == 61 then 4 else 0)
    && Header(buf).used + Header(buf).value + 2 > MAX_INT
  }

  lemma {:induction false} BlobPanicsExactlyOnOverflow(buf: seq<Byte>, isFloat: FloatSyntax)
    requires buf != [] && IsBlobTag(buf[0]) && |buf| <= MAX_INT
    ensures ParseReply(buf, isFloat).Panic? <==> Oversized(buf)
  {
    hide Header, Payload;
    var h := Header(buf);
    if h.Value? && h.value >= 0 {
      PayloadPanicsExactlyOnOverflow(buf, h.used, h.value);
    }
  }

  // --- One broken frame -----------------------------------------------------------------

  /** The type bytes that a line follows, the ones that a decimal number follows, and '_'. */
  predicate IsTag(tag: Byte) {
    tag in {43, 45, 40, 44, 35} || IsNumberTag(tag) || tag == 95
  }

  predicate IsNumberTag(tag: Byte) {
    tag == 58 || IsBlobTag(tag) || IsListTag(tag) || IsPairTag(tag)
  }

  /** A frame that no further bytes can mend, judged by its first line and, for a verbatim string, its fourth byte. */
  predicate Broken(buf: seq<Byte>, isFloat: FloatSyntax) {
    && buf != []
    && var tag, line := buf[0], LineText(buf);
       || !IsTag(tag)
       || (IsNumberTag(tag) && line.Value? && ParseInt64(line.value) == None)
       || ((tag == 62 || IsPairTag(tag)) && Header(buf).Value? && Header(buf).value < 0)
       || (tag == 61 && Header(buf).Value? && BrokenVerbatim(buf, Header(buf).used, Header(buf).value))
       || (tag == 44 && line.Value? && !isFloat(line.value))
       || (tag == 35 && line.Value? && line.value != [116] && line.value != [102])
       || (tag == 95 && |buf| >= 3 && buf[1..3] != CRLF)
  }

  predicate BrokenVerbatim(buf: seq<Byte>, start: nat, n: int) {
    n < 4 || (start + n + 2 <= |buf| && buf[start + 3] != 58)
  }

  // --- Either fault ----------------------------------------------------------------------

  datatype Fault = Overflow | Breakage

  predicate Here(fault: Fault, buf: seq<Byte>, isFloat: FloatSyntax) {
    match fault
    case Overflow => Oversized(buf)
    case Breakage => Broken(buf, isFloat)
  }

  predicate Fails<T>(fault: Fault, p: Parsed<T>) {
    match fault
    case Overflow => p.Panic?
    case Breakage => p.Malformed?
  }

  lemma {:induction false} VerbatimBreaksExactly(buf: seq<Byte>, isFloat: FloatSyntax)
    requires buf != [] && buf[0] == 61 && |buf| <= MAX_INT
    ensures ParseReply(buf, isFloat).Malformed? <==> Broken(buf, isFloat)
  {
    hide LineText, Payload;
    var h := Header(buf);
    if h.Value? && h.value >= 4 {
      PayloadIsAnswered(buf, h.used, h.value);
    }
  }

  lemma {:induction false} PayloadIsAnswered(buf: seq<Byte>, start: nat, n: nat)
    requires start <= |buf| <= MAX_INT && n <= MAX_INT
    ensures !Payload(buf, start, n).Malformed?
    ensures Payload(buf, start, n).Value? <==> start + n + 2 <= |buf|
  {
  }

  lemma {:induction false} LeafFailsExactly(fault: Fault, buf: seq<Byte>, isFloat: FloatSyntax)
    requires buf != [] && |buf| <= MAX_INT && !IsListTag(buf[0]) && !IsPairTag(buf[0])
    ensures Fails(fault, ParseReply(buf, isFloat)) <==> Here(fault, buf, isFloat)
  {
    if IsBlobTag(buf[0]) && fault.Overflow? {
      hide ParseReply, Oversized;
      BlobPanicsExactlyOnOverflow(buf, isFloat);
    } else if buf[0] == 61 {
      hide ParseReply, Broken;
      VerbatimBreaksExactly(buf, isFloat);
    } else if IsBlobTag(buf[0]) {
      hide LineText, Payload;
      if Header(buf).Value? && Header(buf).value >= 0 {
        PayloadIsAnswered(buf, Header(buf).used, Header(buf).value);
      }
    } else {
      hide LineText, ParseInt64;
      if buf[0] == 95 && |buf| >= 3 {
        assert buf[1..3] == [buf[1], buf[2]];
      }
    }
  }

  // --- Through aggregates, maps and attributes -------------------------------------------

  function Shift(off: nat, at: Option<nat>): Option<nat> {
    match at
    case None => None
    case Some(p) => Some(off + p)
  }

  /**
   Where the first frame with the fault lies that the parser reaches: it follows the frames in
   wire order and goes past a frame only when that frame is complete.
   */
  function First(fault: Fault, buf: seq<Byte>, isFloat: FloatSyntax): (at: Option<nat>)
    ensures at.Some? ==> at.value < |buf|
    decreases |buf|, 1
  {
    if Here(fault, buf, isFloat) then Some(0)
    else if buf == [] || !Header(buf).Value? || Header(buf).value < 0 then None
    else
      var h := Header(buf);
      if IsListTag(buf[0]) then FirstAmong(fault, buf, h.used, h.value, isFloat)
      else if IsPairTag(buf[0]) then
        var inside := FirstAmong(fault, buf, h.used, 2 * h.value, isFloat);
        var entries := MapEntries(buf, isFloat);
        if buf[0] == 124 && inside.None? && entries.Value? then
          Shift(entries.used, First(fault, buf[entries.used..], isFloat))
        else inside
      else None
  }

  /** The same among count consecutive frames from position pos on. */
  function FirstAmong(fault: Fault, buf: seq<Byte>, pos: nat, count: nat, isFloat: FloatSyntax): (at: Option<nat>)
    requires 0 < pos <= |buf|
    ensures at.Some? ==> at.value < |buf|
    decreases |buf| - pos, 2, count
  {
    if count == 0 then None
    else
      var here := First(fault, buf[pos..], isFloat);
      var p := ParseReply(buf[pos..], isFloat);
      if here.Some? then Shift(pos, here)
      else if p.Value? then FirstAmong(fault, buf, pos + p.used, count - 1, isFloat)
      else None
  }

  /** What it finds is a frame with the fault. */
  lemma {:induction false} FirstIsHere(fault: Fault, buf: seq<Byte>, isFloat: FloatSyntax)
    requires First(fault, buf, isFloat).Some?
    ensures Here(fault, buf[First(fault, buf, isFloat).value..], isFloat)
    decreases |buf|, 1
  {
    hide Here, Header, MapEntries, FirstAmong;
    if Here(fault, buf, isFloat) {
      assert buf[0..] == buf;
    } else {
      var h := Header(buf);
      if IsListTag(buf[0]) {
        AmongIsHere(fault, buf, h.used, h.value, isFloat);
      } else if FirstAmong(fault, buf, h.used, 2 * h.value, isFloat).Some? {
        AmongIsHere(fault, buf, h.used, 2 * h.value, isFloat);
      } else {
        var used := MapEntries(buf, isFloat).used;
        var rest := buf[used..];
        FirstIsHere(fault, rest, isFloat);
        assert rest[First(fault, rest, isFloat).value..] == buf[used + First(fault, rest, isFloat).value..];
      }
    }
  }

  lemma {:induction false} AmongIsHere(fault: Fault, buf: seq<Byte>, pos: nat, count: nat, isFloat: FloatSyntax)
    requires 0 < pos <= |buf| && FirstAmong(fault, buf, pos, count, isFloat).Some?
    ensures Here(fault, buf[FirstAmong(fault, buf, pos, count, isFloat).value..], isFloat)
    decreases |buf| - pos, 2, count
  {
    hide Here, First, ParseReply;
    var rest := buf[pos..];
    var here := First(fault, rest, isFloat);
    if here.Some? {
      FirstIsHere(fault, rest, isFloat);
      assert rest[here.value..] == buf[pos + here.value..];
    } else {
      AmongIsHere(fault, buf, pos + ParseReply(rest, isFloat).used, count - 1, isFloat);
    }
  }

  lemma {:induction false} ItemsFailExactly(fault: Fault, buf: seq<Byte>, pos: nat, count: nat, isFloat: FloatSyntax)
    requires 0 < pos <= |buf| <= MAX_INT
    ensures Fails(fault, ParseItems(buf[pos..], count, isFloat)) <==> FirstAmong(fault, buf, pos, count, isFloat).Some?
    decreases |buf| - pos, 3, count
  {
    hide ParseReply, First, Here;
    if count > 0 {
      var rest := buf[pos..];
      ParseReplyFailsExactly(fault, rest, isFloat);
      var p := ParseReply(rest, isFloat);
      if p.Value? {
        assert rest[p.used..] == buf[pos + p.used..];
        ItemsFailExactly(fault, buf, pos + p.used, count - 1, isFloat);
      }
    }
  }

  lemma {:induction false} ListFailsExactly(fault: Fault, buf: seq<Byte>, isFloat: FloatSyntax)
    requires buf != [] && IsListTag(buf[0]) && |buf| <= MAX_INT
    ensures Fails(fault, ParseReply(buf, isFloat)) <==> First(fault, buf, isFloat).Some?
    decreases |buf|, 0
  {
    hide LineText, ParseItems, FirstAmong;
    var h := Header(buf);
    if h.Value? && h.value >= 0 {
      ItemsFailExactly(fault, buf, h.used, h.value, isFloat);
    }
  }

  lemma {:induction false} EntriesFailExactly(fault: Fault, buf: seq<Byte>, isFloat: FloatSyntax)
    requires buf != [] && |buf| <= MAX_INT && IsPairTag(buf[0])
    ensures Fails(fault, MapEntries(buf, isFloat))
       <==> Here(fault, buf, isFloat)
            || (Header(buf).Value? && Header(buf).value >= 0
                && FirstAmong(fault, buf, Header(buf).used, 2 * Header(buf).value, isFloat).Some?)
    decreases |buf|, 0
  {
    hide LineText, ParseItems, FirstAmong;
    var h := Header(buf);
    if h.Value? && h.value >= 0 {
      ItemsFailExactly(fault, buf, h.used, 2 * h.value, isFloat);
    }
  }

  lemma {:induction false} EntriesHaveAHeader(buf: seq<Byte>, isFloat: FloatSyntax)
    requires buf != []
    ensures MapEntries(buf, isFloat).Value? ==> Header(buf).Value? && Header(buf).value >= 0
  {
    hide Header, ParseItems;
  }

  lemma {:induction false} PairFailsExactly(fault: Fault, buf: seq<Byte>, isFloat: FloatSyntax)
    requires buf != [] && IsPairTag(buf[0]) && |buf| <= MAX_INT
    ensures Fails(fault, ParseReply(buf, isFloat)) <==> First(fault, buf, isFloat).Some?
    decreases |buf|, 1
  {
    hide Header, MapEntries, FirstAmong, Here;
    EntriesFailExactly(fault, buf, isFloat);
    var entries := MapEntries(buf, isFloat);
    EntriesHaveAHeader(buf, isFloat);
    if entries.Value? {
      ParseReplyFailsExactly(fault, buf[entries.used..], isFloat);
    }
  }

  /** The parser fails exactly when it reaches a frame with the fault, however deep the frames are nested. */
  lemma {:induction false} ParseReplyFailsExactly(fault: Fault, buf: seq<Byte>, isFloat: FloatSyntax)
    requires |buf| <= MAX_INT
    ensures Fails(fault, ParseReply(buf, isFloat)) <==> First(fault, buf, isFloat).Some?
    decreases |buf|, 2
  {
    if buf == [] {
    } else if IsListTag(buf[0]) {
      hide ParseReply, First;
      ListFailsExactly(fault, buf, isFloat);
    } else if IsPairTag(buf[0]) {
      hide ParseReply, First;
      PairFailsExactly(fault, buf, isFloat);
    } else {
      hide ParseReply, Here, Header;
      LeafFailsExactly(fault, buf, isFloat);
    }
  }

  /** All four answers at once: a reply where the buffer starts with one, a fault where one is reached, else more bytes. */
  lemma {:induction false} ParseReplyAnswersExactly(buf: seq<Byte>, isFloat: FloatSyntax)
    requires |buf| <= MAX_INT
    ensures ParseReply(buf, isFloat).Value? <==> exists u: nat, r :: u <= |buf| && SpellsReply(buf[..u], r, isFloat)
    ensures ParseReply(buf, isFloat).Panic? <==> First(Overflow, buf, isFloat).Some?
    ensures ParseReply(buf, isFloat).Malformed? <==> First(Breakage, buf, isFloat).Some?
    ensures ParseReply(buf, isFloat).NeedMore?
       <==> First(Overflow, buf, isFloat).None? && First(Breakage, buf, isFloat).None?
            && !exists u: nat, r :: u <= |buf| && SpellsReply(buf[..u], r, isFloat)
  {
    hide ParseReply, First, SpellsReply;
    ParseReplyFailsExactly(Overflow, buf, isFloat);
    ParseReplyFailsExactly(Breakage, buf, isFloat);
    var p := ParseReply(buf, isFloat);
    if p.Value? {
      ParserIsTheGrammar(buf, p.value, p.used, isFloat);
    }
    if exists u: nat, r :: u <= |buf| && SpellsReply(buf[..u], r, isFloat) {
      var u: nat, r :| u <= |buf| && SpellsReply(buf[..u], r, isFloat);
      ParserIsTheGrammar(buf, r, u, isFloat);
    }
  }

  /** A length header that declares more than the largest int less the buffer and two. */
  predicate DeclaresTooMuch(buf: seq<Byte>, p: nat) {
    p < |buf| && IsBlobTag(buf[p]) && Header(buf[p..]).Value? && Header(buf[p..]).value > MAX_INT - |buf| - 2
  }

  /** A panic needs such a header somewhere in the buffer, so a buffer without one always gets an answer. */
  lemma {:induction false} PanicNeedsAHugeHeader(buf: seq<Byte>, isFloat: FloatSyntax)
    requires |buf| <= MAX_INT && ParseReply(buf, isFloat).Panic?
    ensures exists p :: DeclaresTooMuch(buf, p)
  {
    hide Header;
    ParseReplyFailsExactly(Overflow, buf, isFloat);
    FirstIsHere(Overflow, buf, isFloat);
    var p := First(Overflow, buf, isFloat).value;
    assert DeclaresTooMuch(buf, p);
  }

  // --- Inputs -----------------------------------------------------------------------------

  /** A bare header of each of the three tags panics. */
  lemma {:induction false} OverflowingLengthPanics(tag: Byte, isFloat: FloatSyntax)
    requires IsBlobTag(tag)
    ensures ParseReply(Counted(tag, MAX_INT), isFloat).Panic?
  {
    hide Header;
    var buf := Counted(tag, MAX_INT);
    HeaderOf(tag);
    BlobPanicsExactlyOnOverflow(buf, isFloat);
  }

  lemma {:induction false} HeaderOf(tag: Byte)
    ensures var buf := Counted(tag, MAX_INT);
            Header(buf) == Value(MAX_INT, |buf|) && buf != [] && buf[0] == tag && |buf| <= MAX_INT
  {
    hide Digits;
    var buf := Counted(tag, MAX_INT);
    CountedParses(tag, MAX_INT, []);
    assert buf + [] == buf;
    DigitsAreFew(MAX_INT);
  }

  lemma {:induction false} DigitsAreFew(n: nat)
    ensures |Digits(n)| <= n / 10 + 1
  {
    if n >= 10 {
      DigitsAreFew(n / 10);
    }
  }

  /** So does one inside an array. */
  lemma {:induction false} NestedOverflowPanics(isFloat: FloatSyntax)
    ensures ParseReply(Counted(42, 1) + Counted(36, MAX_INT), isFloat).Panic?
  {
    hide Header, ParseReply, PrintInt;
    var inner := Counted(36, MAX_INT);
    var head := Counted(42, 1);
    var buf := head + inner;
    CountedParses(42, 1, inner);
    OverflowingLengthPanics(36, isFloat);
    assert buf[|head|..] == inner;
    OneItemPanics(inner, isFloat);
    assert AggReply(buf, ArrayAgg, isFloat).Panic?;
    ArrayTag(buf, isFloat);
  }

  lemma {:induction false} OneItemPanics(buf: seq<Byte>, isFloat: FloatSyntax)
    requires ParseReply(buf, isFloat).Panic?
    ensures ParseItems(buf, 1, isFloat).Panic?
  {
    hide ParseReply;
  }

  lemma {:induction false} ArrayTag(buf: seq<Byte>, isFloat: FloatSyntax)
    requires buf != [] && buf[0] == 42
    ensures ParseReply(buf, isFloat) == AggReply(buf, ArrayAgg, isFloat)
  {
    hide AggReply;
  }
}
