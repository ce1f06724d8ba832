/** The incremental RESP2/RESP3 reply parser of bindings/go/reply.go. */
module Resp {
  import opened Bytes

  datatype Reply =
    | Simple(bytes: seq<Byte>)
    | Error(bytes: seq<Byte>)
    | Int(n: int)
    | Bulk(bytes: seq<Byte>)
    | Nil
    | Array(items: seq<Reply>)
    | Map(pairs: seq<Pair>)
    | Set(items: seq<Reply>)
    | Double(text: seq<Byte>)
    | Boolean(b: bool)
    | Verbatim(format: seq<Byte>, bytes: seq<Byte>)
    | BigNumber(bytes: seq<Byte>)
    | Null
    | Push(items: seq<Reply>)
    | BlobError(bytes: seq<Byte>)

  datatype Pair = Pair(key: Reply, val: Reply)

  /** The outcomes of one parse: a value and the bytes it took, (_, 0, nil), an error, or a run-time panic. */
  datatype Parsed<+T> = Value(value: T, used: nat) | NeedMore | Malformed | Panic {
    predicate IsFailure() {
      !Value?
    }

    function PropagateFailure<U>(): (p: Parsed<U>)
      requires IsFailure()
    {
      match this
      case NeedMore => NeedMore
      case Malformed => Malformed
      case Panic => Panic
    }

    function Extract(): (T, nat)
      requires Value?
    {
      (value, used)
    }

    /** A reply or an error: more bytes will not be asked for. */
    predicate Decided() {
      !NeedMore?
    }
  }

  datatype LineKind = SimpleLine | ErrorLine | BigNumberLine
  datatype BlobKind = BulkBlob | ErrorBlob
  datatype AggKind = ArrayAgg | SetAgg | PushAgg

  /** strconv.ParseFloat's verdict on a double's text; the text stands for the number. */
  type FloatSyntax = seq<Byte> -> bool

  function LineOf(kind: LineKind, s: seq<Byte>): Reply {
    match kind
    case SimpleLine => Simple(s)
    case ErrorLine => Error(s)
    case BigNumberLine => BigNumber(s)
  }

  function BlobOf(kind: BlobKind, s: seq<Byte>): Reply {
    match kind
    case BulkBlob => Bulk(s)
    case ErrorBlob => BlobError(s)
  }

  function AggOf(kind: AggKind, items: seq<Reply>): Reply {
    match kind
    case ArrayAgg => Array(items)
    case SetAgg => Set(items)
    case PushAgg => Push(items)
  }

  // --- The parser -----------------------------------------------------------

  predicate CrlfAt(buf: seq<Byte>, i: nat) {
    i + 1 < |buf| && buf[i] == CR && buf[i + 1] == LF
  }

  /** The first CRLF at or after from, or -1. */
  function FindCrlf(buf: seq<Byte>, from: nat): (r: int)
    ensures r == -1 || (from <= r && CrlfAt(buf, r))
    ensures forall i: nat :: from <= i && (r == -1 || i < r) ==> !CrlfAt(buf, i)
    decreases |buf| - from
  {
    if from + 1 >= |buf| then -1
    else if CrlfAt(buf, from) then from
    else FindCrlf(buf, from + 1)
  }

  /** The CRLF-terminated text after the tag byte. */
  function LineText(buf: seq<Byte>): (p: Parsed<seq<Byte>>)
    requires buf != []
    ensures p.Value? || p.NeedMore?
    ensures p.Value? ==> 3 <= p.used <= |buf|
  {
    var eol := FindCrlf(buf, 1);
    if eol < 0 then NeedMore else Value(buf[1..eol], eol + 2)
  }

  /** The decimal header after the tag byte. */
  function Header(buf: seq<Byte>): (p: Parsed<int>)
    requires buf != []
    ensures !p.Panic?
    ensures p.Value? ==> 3 <= p.used <= |buf| && MIN_INT <= p.value <= MAX_INT
  {
    var (text, used) :- LineText(buf);
    match ParseInt64(text)
    case Some(n) => Value(n, used)
    case None => Malformed
  }

  function LineReply(buf: seq<Byte>, kind: LineKind): Parsed<Reply>
    requires buf != []
  {
    var (text, used) :- LineText(buf);
    Value(LineOf(kind, text), used)
  }

  function IntReply(buf: seq<Byte>): Parsed<Reply>
    requires buf != []
  {
    var (n, used) :- Header(buf);
    Value(Int(n), used)
  }

  /**
   The n payload bytes at start; the two bytes after them are counted and not inspected. The
   sums are 64-bit ints and may wrap. The slice expression panics unless its bounds are in
   order and within the capacity, which is at most MAX_SLICE.
   */
  function Payload(buf: seq<Byte>, start: nat, n: nat): (p: Parsed<seq<Byte>>)
    requires n <= MAX_INT
    ensures p.Value? ==> start + n + 2 <= |buf| && p == Value(buf[start..start + n], start + n + 2)
  {
    var end := Wrap(start + n);
    var need := Wrap(end + 2);
    if |buf| < need then NeedMore
    else if start <= end <= MAX_SLICE then
      WrappedEnd(start, n);
      Value(buf[start..end], need)
    else Panic
  }

  /** Bounds that are in order were not wrapped. */
  lemma {:induction false} WrappedEnd(start: nat, n: nat)
    requires n <= MAX_INT && start <= Wrap(start + n)
    ensures Wrap(start + n) == start + n
  {
  }

  function BulkReply(buf: seq<Byte>, kind: BlobKind): Parsed<Reply>
    requires buf != []
  {
    var (n, start) :- Header(buf);
    if n < 0 then Value(Nil, start)
    else
      var (bytes, used) :- Payload(buf, start, n);
      Value(BlobOf(kind, bytes), used)
  }

  function VerbatimReply(buf: seq<Byte>): Parsed<Reply>
    requires buf != []
  {
    var (n, start) :- Header(buf);
    if n < 4 then Malformed
    else
      var (body, used) :- Payload(buf, start, n);
      if body[3] != 58 then Malformed
      else Value(Verbatim(body[..3], body[4..]), used)
  }

  function DoubleReply(buf: seq<Byte>, isFloat: FloatSyntax): Parsed<Reply>
    requires buf != []
  {
    var (text, used) :- LineText(buf);
    if isFloat(text) then Value(Double(text), used) else Malformed
  }

  function BoolReply(buf: seq<Byte>): Parsed<Reply>
    requires buf != []
  {
    var (text, used) :- LineText(buf);
    if text == [116] then Value(Boolean(true), used)
    else if text == [102] then Value(Boolean(false), used)
    else Malformed
  }

  function NullReply(buf: seq<Byte>): Parsed<Reply>
    requires buf != []
  {
    if |buf| < 3 then NeedMore
    else if buf[0] != 95 || buf[1] != CR || buf[2] != LF then Malformed
    else Value(Null, 3)
  }

  /** items from used bytes, then what the rest of the buffer yields. */
  function Resume<T>(items: seq<T>, used: nat, rest: Parsed<seq<T>>): Parsed<seq<T>> {
    var (more, u) :- rest;
    Value(items + more, used + u)
  }

  /** count consecutive replies. */
  function ParseItems(buf: seq<Byte>, count: nat, isFloat: FloatSyntax): (p: Parsed<seq<Reply>>)
    ensures p.Value? ==> |p.value| == count && 3 * count <= p.used <= |buf|
    decreases |buf|, 3, count
  {
    if count == 0 then Value([], 0)
    else
      var (r, u) :- ParseReply(buf, isFloat);
      Resume([r], u, ParseItems(buf[u..], count - 1, isFloat))
  }

  /** Replies taken two by two, as keys and values. */
  function PairUp(items: seq<Reply>): (pairs: seq<Pair>)
    requires |items| % 2 == 0
    ensures |pairs| == |items| / 2
  {
    seq(|items| / 2, i requires 0 <= i < |items| / 2 => Pair(items[2 * i], items[2 * i + 1]))
  }

  function AggReply(buf: seq<Byte>, kind: AggKind, isFloat: FloatSyntax): (p: Parsed<Reply>)
    requires buf != []
    ensures p.Value? ==> 3 <= p.used <= |buf|
    decreases |buf|, 0
  {
    var (count, pos) :- Header(buf);
    if count < 0 then
      if kind.PushAgg? then Malformed else Value(Nil, pos)
    else
      var (items, used) :- ParseItems(buf[pos..], count, isFloat);
      Value(AggOf(kind, items), pos + used)
  }

  /** The keys and values of a map or attribute frame, in wire order. */
  function MapEntries(buf: seq<Byte>, isFloat: FloatSyntax): (p: Parsed<seq<Reply>>)
    requires buf != []
    ensures p.Value? ==> 3 <= p.used <= |buf| && |p.value| % 2 == 0
    decreases |buf|, 0
  {
    var (count, pos) :- Header(buf);
    if count < 0 then Malformed
    else Resume([], pos, ParseItems(buf[pos..], 2 * count, isFloat))
  }

  function MapReply(buf: seq<Byte>, isFloat: FloatSyntax): (p: Parsed<Reply>)
    requires buf != []
    ensures p.Value? ==> 3 <= p.used <= |buf|
    decreases |buf|, 1
  {
    var (entries, used) :- MapEntries(buf, isFloat);
    Value(Map(PairUp(entries)), used)
  }

  /** An attribute map is parsed, counted and dropped. */
  function AttributedReply(buf: seq<Byte>, isFloat: FloatSyntax): (p: Parsed<Reply>)
    requires buf != []
    ensures p.Value? ==> 3 <= p.used <= |buf|
    decreases |buf|, 1
  {
    var (_, used) :- MapEntries(buf, isFloat);
    var (r, more) :- ParseReply(buf[used..], isFloat);
    Value(r, used + more)
  }

  function ParseReply(buf: seq<Byte>, isFloat: FloatSyntax): (p: Parsed<Reply>)
    ensures p.Value? ==> 3 <= p.used <= |buf|
    decreases |buf|, 2
  {
    if buf == [] then NeedMore
    else if buf[0] == 43 then LineReply(buf, SimpleLine)        // '+'
    else if buf[0] == 45 then LineReply(buf, ErrorLine)         // '-'
    else if buf[0] == 58 then IntReply(buf)                     // ':'
    else if buf[0] == 36 then BulkReply(buf, BulkBlob)          // '$'
    else if buf[0] == 42 then AggReply(buf, ArrayAgg, isFloat)  // '*'
    else if buf[0] == 37 then MapReply(buf, isFloat)            // '%'
    else if buf[0] == 126 then AggReply(buf, SetAgg, isFloat)   // '~'
    else if buf[0] == 44 then DoubleReply(buf, isFloat)         // ','
    else if buf[0] == 35 then BoolReply(buf)                    // '#'
    else if buf[0] == 61 then VerbatimReply(buf)                // '='
    else if buf[0] == 40 then LineReply(buf, BigNumberLine)     // '('
    else if buf[0] == 95 then NullReply(buf)                    // '_'
    else if buf[0] == 62 then AggReply(buf, PushAgg, isFloat)   // '>'
    else if buf[0] == 33 then BulkReply(buf, ErrorBlob)         // '!'
    else if buf[0] == 124 then AttributedReply(buf, isFloat)    // '|'
    else Malformed
  }
}
