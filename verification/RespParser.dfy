/** The loops of bindings/go/reply.go: each computes the parser function of module Resp. */
module RespParser {
  import opened Bytes
  import opened Resp

  /** capHint: a declared count, limited by the bytes that remain. */
  function CapHint(count: nat, remaining: int): (cap: nat)
    ensures cap <= count && (remaining >= 0 ==> cap <= remaining)
  {
    var room := if remaining < 0 then 0 else remaining;
    if count > room then room else count
  }

  /** findCRLF */
  method FindCrlfScan(buf: seq<Byte>, from: nat) returns (r: int)
    ensures r == FindCrlf(buf, from)
  {
    var i := from;
    while i + 1 < |buf|
      invariant from <= i
      invariant FindCrlf(buf, from) == FindCrlf(buf, i)
      decreases |buf| - i
    {
      if buf[i] == CR && buf[i + 1] == LF {
        return i;
      }
      i := i + 1;
    }
    return -1;
  }

  /** The header that bulk, aggregate, map and verbatim frames share. */
  method ReadHeader(buf: seq<Byte>) returns (p: Parsed<int>)
    requires buf != []
    ensures p == Header(buf)
  {
    var hdr := FindCrlfScan(buf, 1);
    if hdr < 0 {
      return NeedMore;
    }
    match ParseInt64(buf[1..hdr]) {
      case None => return Malformed;
      case Some(n) => return Value(n, hdr + 2);
    }
  }

  lemma {:induction false} ResumeResume<T>(a: seq<T>, u: nat, b: seq<T>, v: nat, rest: Parsed<seq<T>>)
    ensures Resume(a, u, Resume(b, v, rest)) == Resume(a + b, u + v, rest)
  {
    if rest.Value? {
      assert a + (b + rest.value) == a + b + rest.value;
    }
  }

  /** One step of the item loop: what is parsed so far plus what the rest yields does not change. */
  lemma {:induction false} ItemsStep(buf: seq<Byte>, start: nat, pos: nat, items: seq<Reply>, left: nat, whole: Parsed<seq<Reply>>,
                  isFloat: FloatSyntax)
    requires start <= pos <= |buf| && left > 0
    requires whole == Resume(items, pos - start, ParseItems(buf[pos..], left, isFloat))
    requires ParseReply(buf[pos..], isFloat).Value?
    ensures var p := ParseReply(buf[pos..], isFloat);
            whole == Resume(items + [p.value], pos + p.used - start, ParseItems(buf[pos + p.used..], left - 1, isFloat))
  {
    hide ParseReply;
    var p := ParseReply(buf[pos..], isFloat);
    assert buf[pos..][p.used..] == buf[pos + p.used..];
    ResumeResume(items, pos - start, [p.value], p.used, ParseItems(buf[pos + p.used..], left - 1, isFloat));
  }

  lemma {:induction false} ItemsStop(buf: seq<Byte>, pos: nat, items: seq<Reply>, used: nat, left: nat, isFloat: FloatSyntax)
    requires pos <= |buf| && left > 0 && ParseReply(buf[pos..], isFloat).IsFailure()
    ensures Resume(items, used, ParseItems(buf[pos..], left, isFloat)) == ParseReply(buf[pos..], isFloat).PropagateFailure()
  {
    hide ParseReply;
  }

  /** Nothing is parsed yet. */
  lemma {:induction false} ItemsStart(whole: Parsed<seq<Reply>>)
    ensures whole == Resume([], 0, whole)
  {
    if whole.Value? {
      assert [] + whole.value == whole.value;
    }
  }

  /** Every item is parsed. */
  lemma {:induction false} ItemsDone(buf: seq<Byte>, items: seq<Reply>, used: nat, isFloat: FloatSyntax)
    ensures Resume(items, used, ParseItems(buf, 0, isFloat)) == Value(items, used)
  {
    assert items + [] == items;
  }

  /** aggReply: the slice made with CapHint's capacity is never outgrown by the appends. */
  method AggregateLoop(buf: seq<Byte>, kind: AggKind, isFloat: FloatSyntax) returns (p: Parsed<Reply>)
    requires buf != []
    ensures p == AggReply(buf, kind, isFloat)
    decreases |buf|, 0
  {
    hide ParseReply, ParseItems, Header, Resume;
    var h := ReadHeader(buf);
    if !h.Value? {
      return h.PropagateFailure();
    }
    var count, start := h.value, h.used;
    if count < 0 {
      return if kind.PushAgg? then Malformed else Value(Nil, start);
    }
    var pos := start;
    var items: seq<Reply> := [];
    var cap := CapHint(count, |buf| - pos);
    ghost var whole := ParseItems(buf[start..], count, isFloat);
    ItemsStart(whole);
    for i := 0 to count
      invariant start + 3 * i <= pos <= |buf| && |items| == i <= cap
      invariant whole == Resume(items, pos - start, ParseItems(buf[pos..], count - i, isFloat))
    {
      var item := Parse(buf[pos..], isFloat);
      if !item.Value? {
        ItemsStop(buf, pos, items, pos - start, count - i, isFloat);
        return item.PropagateFailure();
      }
      ItemsStep(buf, start, pos, items, count - i, whole, isFloat);
      items := items + [item.value];
      pos := pos + item.used;
    }
    ItemsDone(buf[pos..], items, pos - start, isFloat);
    return Value(AggOf(kind, items), pos);
  }

  lemma {:induction false} PairUpAppend(entries: seq<Reply>, k: Reply, v: Reply)
    requires |entries| % 2 == 0
    ensures PairUp(entries + [k] + [v]) == PairUp(entries) + [Pair(k, v)]
  {
    var longer := entries + [k] + [v];
    forall i | 0 <= i < |entries| / 2
      ensures PairUp(longer)[i] == PairUp(entries)[i]
    {
      assert longer[2 * i] == entries[2 * i] && longer[2 * i + 1] == entries[2 * i + 1];
    }
  }

  /** mapReply: keys and values alternate, and the pairs stay within CapHint's capacity. */
  method MapLoop(buf: seq<Byte>, isFloat: FloatSyntax) returns (p: Parsed<seq<Pair>>)
    requires buf != []
    ensures p == InPairs(MapEntries(buf, isFloat))
    decreases |buf|, 0
  {
    hide ParseReply, ParseItems, Header, PairUp;
    var h := ReadHeader(buf);
    if !h.Value? {
      return h.PropagateFailure();
    }
    var count, start := h.value, h.used;
    if count < 0 {
      return Malformed;
    }
    p := PairLoop(buf, start, count, isFloat);
  }

  function InPairs(p: Parsed<seq<Reply>>): Parsed<seq<Pair>>
    requires p.Value? ==> |p.value| % 2 == 0
  {
    if p.Value? then Value(PairUp(p.value), p.used) else p.PropagateFailure()
  }

  method PairLoop(buf: seq<Byte>, start: nat, count: nat, isFloat: FloatSyntax) returns (p: Parsed<seq<Pair>>)
    requires 0 < start <= |buf|
    ensures p == InPairs(Resume([], start, ParseItems(buf[start..], 2 * count, isFloat)))
    decreases |buf|, 0, 0
  {
    hide ParseReply, ParseItems, PairUp, Resume;
    var pos := start;
    var pairs: seq<Pair> := [];
    var cap := CapHint(count, (|buf| - pos) / 2);
    ghost var entries: seq<Reply> := [];
    ghost var whole := ParseItems(buf[start..], 2 * count, isFloat);
    ItemsStart(whole);
    EmptyPairUp();
    for i := 0 to count
      invariant start + 6 * i <= pos <= |buf| && |pairs| == i <= cap
      invariant |entries| == 2 * i && pairs == PairUp(entries)
      invariant whole == Resume(entries, pos - start, ParseItems(buf[pos..], 2 * (count - i), isFloat))
    {
      ghost var left := 2 * (count - i);
      var k := Parse(buf[pos..], isFloat);
      if !k.Value? {
        ItemsStop(buf, pos, entries, pos - start, left, isFloat);
        PairsOf(start, whole);
        return k.PropagateFailure();
      }
      ItemsStep(buf, start, pos, entries, left, whole, isFloat);
      ghost var held := entries + [k.value];
      pos := pos + k.used;
      var v := Parse(buf[pos..], isFloat);
      if !v.Value? {
        ItemsStop(buf, pos, held, pos - start, left - 1, isFloat);
        PairsOf(start, whole);
        return v.PropagateFailure();
      }
      ItemsStep(buf, start, pos, held, left - 1, whole, isFloat);
      PairUpAppend(entries, k.value, v.value);
      pos := pos + v.used;
      entries := held + [v.value];
      pairs := pairs + [Pair(k.value, v.value)];
    }
    ItemsDone(buf[pos..], entries, pos - start, isFloat);
    PairsOf(start, whole);
    return Value(pairs, pos);
  }

  lemma {:induction false} PairsOf(start: nat, whole: Parsed<seq<Reply>>)
    ensures Resume([], start, whole)
         == if whole.Value? then Value(whole.value, start + whole.used) else whole.PropagateFailure()
  {
    if whole.Value? {
      assert [] + whole.value == whole.value;
    }
  }

  lemma {:induction false} EmptyPairUp()
    ensures PairUp([]) == []
  {
  }

  /** parseReply */
  method Parse(buf: seq<Byte>, isFloat: FloatSyntax) returns (p: Parsed<Reply>)
    ensures p == ParseReply(buf, isFloat)
    decreases |buf|, 2
  {
    hide AggReply, MapEntries, PairUp;
    if buf == [] {
      return NeedMore;
    } else if buf[0] == 42 {
      p := AggregateLoop(buf, ArrayAgg, isFloat);
    } else if buf[0] == 126 {
      p := AggregateLoop(buf, SetAgg, isFloat);
    } else if buf[0] == 62 {
      p := AggregateLoop(buf, PushAgg, isFloat);
    } else if buf[0] == 37 {
      var m := MapLoop(buf, isFloat);
      p := if m.Value? then Value(Map(m.value), m.used) else m.PropagateFailure();
    } else if buf[0] == 124 {
      var m := MapLoop(buf, isFloat);
      if !m.Value? {
        return m.PropagateFailure();
      }
      var r := Parse(buf[m.used..], isFloat);
      p := if r.Value? then Value(r.value, m.used + r.used) else r.PropagateFailure();
    } else {
      p := match buf[0]
        case 43 => LineReply(buf, SimpleLine)
        case 45 => LineReply(buf, ErrorLine)
        case 58 => IntReply(buf)
        case 36 => BulkReply(buf, BulkBlob)
        case 44 => DoubleReply(buf, isFloat)
        case 35 => BoolReply(buf)
        case 61 => VerbatimReply(buf)
        case 40 => LineReply(buf, BigNumberLine)
        case 95 => NullReply(buf)
        case 33 => BulkReply(buf, ErrorBlob)
        case _ => Malformed;
    }
  }
}
