/** What the reply parser promises to a connection that re-runs it on a growing buffer: stable outcomes and bounded results. */
module RespLaws {
  import opened Bytes
  import opened Resp

  // --- Stability under extension of the buffer --------------------------------

  lemma {:induction false} FindCrlfStable(buf: seq<Byte>, ext: seq<Byte>, from: nat)
    requires FindCrlf(buf, from) >= 0
    ensures FindCrlf(buf + ext, from) == FindCrlf(buf, from)
  {
    var r := FindCrlf(buf, from);
    assert CrlfAt(buf + ext, r);
    forall i: nat | from <= i < r
      ensures !CrlfAt(buf + ext, i)
    {
      assert !CrlfAt(buf, i);
    }
    var q := FindCrlf(buf + ext, from);
    assert !(r < q) && !(0 <= q < r);
  }

  lemma {:induction false} LineTextStable(buf: seq<Byte>, ext: seq<Byte>)
    requires buf != [] && LineText(buf).Value?
    ensures LineText(buf + ext) == LineText(buf)
  {
    FindCrlfStable(buf, ext, 1);
    var eol := FindCrlf(buf, 1);
    assert (buf + ext)[1..eol] == buf[1..eol];
  }

  lemma {:induction false} HeaderStable(buf: seq<Byte>, ext: seq<Byte>)
    requires buf != [] && Header(buf).Decided()
    ensures Header(buf + ext) == Header(buf)
  {
    LineTextStable(buf, ext);
  }

  lemma {:induction false} PayloadStable(buf: seq<Byte>, ext: seq<Byte>, start: nat, n: nat)
    requires n <= MAX_INT && Payload(buf, start, n).Decided()
    ensures Payload(buf + ext, start, n) == Payload(buf, start, n)
  {
    if start + n + 2 <= |buf| {
      assert (buf + ext)[start..start + n] == buf[start..start + n];
    }
  }

  lemma {:induction false} ItemsStable(buf: seq<Byte>, ext: seq<Byte>, count: nat, isFloat: FloatSyntax)
    requires ParseItems(buf, count, isFloat).Decided()
    ensures ParseItems(buf + ext, count, isFloat) == ParseItems(buf, count, isFloat)
    decreases |buf|, 3, count
  {
    hide ParseReply;
    if count > 0 {
      ParseReplyStable(buf, ext, isFloat);
      var first := ParseReply(buf, isFloat);
      if first.Value? {
        assert (buf + ext)[first.used..] == buf[first.used..] + ext;
        ItemsStable(buf[first.used..], ext, count - 1, isFloat);
      }
    }
  }

  lemma {:induction false} AggReplyStable(buf: seq<Byte>, ext: seq<Byte>, kind: AggKind, isFloat: FloatSyntax)
    requires buf != [] && AggReply(buf, kind, isFloat).Decided()
    ensures AggReply(buf + ext, kind, isFloat) == AggReply(buf, kind, isFloat)
    decreases |buf|, 0
  {
    hide ParseItems, LineText, ParseInt64;
    HeaderStable(buf, ext);
    var h := Header(buf);
    if h.Value? && h.value >= 0 {
      assert (buf + ext)[h.used..] == buf[h.used..] + ext;
      ItemsStable(buf[h.used..], ext, h.value, isFloat);
    }
  }

  lemma {:induction false} MapEntriesStable(buf: seq<Byte>, ext: seq<Byte>, isFloat: FloatSyntax)
    requires buf != [] && MapEntries(buf, isFloat).Decided()
    ensures MapEntries(buf + ext, isFloat) == MapEntries(buf, isFloat)
    decreases |buf|, 0
  {
    hide ParseItems;
    HeaderStable(buf, ext);
    var h := Header(buf);
    if h.Value? && h.value >= 0 {
      assert (buf + ext)[h.used..] == buf[h.used..] + ext;
      ItemsStable(buf[h.used..], ext, 2 * h.value, isFloat);
    }
  }

  lemma {:induction false} AttributedReplyStable(buf: seq<Byte>, ext: seq<Byte>, isFloat: FloatSyntax)
    requires buf != [] && AttributedReply(buf, isFloat).Decided()
    ensures AttributedReply(buf + ext, isFloat) == AttributedReply(buf, isFloat)
    decreases |buf|, 1
  {
    MapEntriesStable(buf, ext, isFloat);
    var m := MapEntries(buf, isFloat);
    if m.Value? {
      assert (buf + ext)[m.used..] == buf[m.used..] + ext;
      ParseReplyStable(buf[m.used..], ext, isFloat);
    }
  }

  lemma {:induction false} BlobStable(buf: seq<Byte>, ext: seq<Byte>)
    requires buf != []
    ensures forall kind :: BulkReply(buf, kind).Decided() ==> BulkReply(buf + ext, kind) == BulkReply(buf, kind)
    ensures VerbatimReply(buf).Decided() ==> VerbatimReply(buf + ext) == VerbatimReply(buf)
  {
    hide Payload, ParseInt64, LineText;
    var h := Header(buf);
    if h.Decided() {
      HeaderStable(buf, ext);
      if h.Value? && h.value >= 0 && Payload(buf, h.used, h.value).Decided() {
        PayloadStable(buf, ext, h.used, h.value);
      }
    }
  }

  /** Once decided, a parse is decided the same way however many bytes follow. */
  lemma {:induction false} ParseReplyStable(buf: seq<Byte>, ext: seq<Byte>, isFloat: FloatSyntax)
    requires ParseReply(buf, isFloat).Decided()
    ensures ParseReply(buf + ext, isFloat) == ParseReply(buf, isFloat)
    decreases |buf|, 2
  {
    hide AggReply, MapEntries;
    var tag := buf[0];
    if tag == 42 {
      AggReplyStable(buf, ext, ArrayAgg, isFloat);
    } else if tag == 126 {
      AggReplyStable(buf, ext, SetAgg, isFloat);
    } else if tag == 62 {
      AggReplyStable(buf, ext, PushAgg, isFloat);
    } else if tag == 37 {
      MapEntriesStable(buf, ext, isFloat);
    } else if tag == 124 {
      AttributedReplyStable(buf, ext, isFloat);
    } else if tag == 36 || tag == 33 || tag == 61 {
      BlobStable(buf, ext);
    } else if LineText(buf).Value? {
      LineTextStable(buf, ext);
    }
  }

  /** A buffer that needs more bytes has only prefixes that need more bytes. */
  lemma {:induction false} NeedMoreOnPrefixes(buf: seq<Byte>, k: nat, isFloat: FloatSyntax)
    requires k <= |buf| && ParseReply(buf, isFloat).NeedMore?
    ensures ParseReply(buf[..k], isFloat).NeedMore?
  {
    if ParseReply(buf[..k], isFloat).Decided() {
      assert buf[..k] + buf[k..] == buf;
      ParseReplyStable(buf[..k], buf[k..], isFloat);
      assert false;
    }
  }

  // --- The bytes a reply consumed decide it --------------------------------------

  lemma {:induction false} LineTextOfPrefix(buf: seq<Byte>, k: nat)
    requires buf != [] && LineText(buf).Value? && LineText(buf).used <= k <= |buf|
    ensures LineText(buf[..k]) == LineText(buf)
  {
    var eol := FindCrlf(buf, 1);
    assert CrlfAt(buf[..k], eol);
    forall i: nat | 1 <= i < eol
      ensures !CrlfAt(buf[..k], i)
    {
      assert !CrlfAt(buf, i);
    }
    var q := FindCrlf(buf[..k], 1);
    assert !(eol < q) && !(0 <= q < eol);
    assert buf[..k][1..eol] == buf[1..eol];
  }

  lemma {:induction false} BlobOfPrefix(buf: seq<Byte>, k: nat)
    requires buf != [] && k <= |buf|
    ensures forall kind :: BulkReply(buf, kind).Value? && BulkReply(buf, kind).used <= k
                           ==> BulkReply(buf[..k], kind) == BulkReply(buf, kind)
    ensures VerbatimReply(buf).Value? && VerbatimReply(buf).used <= k ==> VerbatimReply(buf[..k]) == VerbatimReply(buf)
  {
    hide Payload, ParseInt64, FindCrlf;
    var h := Header(buf);
    if h.Value? && h.used <= k {
      LineTextOfPrefix(buf, k);
      if h.value >= 0 && Payload(buf, h.used, h.value).Value? && Payload(buf, h.used, h.value).used <= k {
        PayloadOfPrefix(buf, k, h.used, h.value);
      }
    }
  }

  lemma {:induction false} PayloadOfPrefix(buf: seq<Byte>, k: nat, start: nat, n: nat)
    requires n <= MAX_INT && Payload(buf, start, n).Value? && Payload(buf, start, n).used <= k <= |buf|
    ensures Payload(buf[..k], start, n) == Payload(buf, start, n)
  {
    assert buf[..k][start..start + n] == buf[start..start + n];
  }

  lemma {:induction false} ItemsOfPrefix(buf: seq<Byte>, k: nat, count: nat, isFloat: FloatSyntax)
    requires ParseItems(buf, count, isFloat).Value?
    requires ParseItems(buf, count, isFloat).used <= k <= |buf|
    ensures ParseItems(buf[..k], count, isFloat) == ParseItems(buf, count, isFloat)
    decreases |buf|, 3, count
  {
    hide ParseReply;
    if count > 0 {
      var u := ParseReply(buf, isFloat).used;
      ParseReplyOfPrefix(buf, k, isFloat);
      ItemsOfPrefix(buf[u..], k - u, count - 1, isFloat);
      assert buf[..k][u..] == buf[u..][..k - u];
    }
  }

  lemma {:induction false} AggReplyOfPrefix(buf: seq<Byte>, k: nat, kind: AggKind, isFloat: FloatSyntax)
    requires buf != [] && AggReply(buf, kind, isFloat).Value? && AggReply(buf, kind, isFloat).used <= k <= |buf|
    ensures AggReply(buf[..k], kind, isFloat) == AggReply(buf, kind, isFloat)
    decreases |buf|, 0
  {
    hide ParseItems;
    LineTextOfPrefix(buf, k);
    var h := Header(buf);
    if h.value >= 0 {
      ItemsOfPrefix(buf[h.used..], k - h.used, h.value, isFloat);
      assert buf[..k][h.used..] == buf[h.used..][..k - h.used];
    }
  }

  lemma {:induction false} MapEntriesOfPrefix(buf: seq<Byte>, k: nat, isFloat: FloatSyntax)
    requires buf != [] && MapEntries(buf, isFloat).Value? && MapEntries(buf, isFloat).used <= k <= |buf|
    ensures MapEntries(buf[..k], isFloat) == MapEntries(buf, isFloat)
    decreases |buf|, 0
  {
    hide ParseItems;
    LineTextOfPrefix(buf, k);
    var h := Header(buf);
    ItemsOfPrefix(buf[h.used..], k - h.used, 2 * h.value, isFloat);
    assert buf[..k][h.used..] == buf[h.used..][..k - h.used];
  }

  lemma {:induction false} ParseReplyOfPrefix(buf: seq<Byte>, k: nat, isFloat: FloatSyntax)
    requires ParseReply(buf, isFloat).Value? && ParseReply(buf, isFloat).used <= k <= |buf|
    ensures ParseReply(buf[..k], isFloat) == ParseReply(buf, isFloat)
    decreases |buf|, 2
  {
    hide AggReply, MapEntries;
    var tag := buf[0];
    if tag == 42 {
      AggReplyOfPrefix(buf, k, ArrayAgg, isFloat);
    } else if tag == 126 {
      AggReplyOfPrefix(buf, k, SetAgg, isFloat);
    } else if tag == 62 {
      AggReplyOfPrefix(buf, k, PushAgg, isFloat);
    } else if tag == 37 {
      MapEntriesOfPrefix(buf, k, isFloat);
    } else if tag == 124 {
      MapEntriesOfPrefix(buf, k, isFloat);
      var u := MapEntries(buf, isFloat).used;
      ParseReplyOfPrefix(buf[u..], k - u, isFloat);
      assert buf[..k][u..] == buf[u..][..k - u];
    } else if tag == 36 || tag == 33 || tag == 61 {
      BlobOfPrefix(buf, k);
    } else if tag != 95 {
      LineTextOfPrefix(buf, k);
    }
  }

  /**
   A reply is returned the moment its last byte is in the buffer: not on any shorter
   prefix, and unchanged on every longer one.
   */
  lemma {:induction false} ReplyAppearsExactlyWhenComplete(buf: seq<Byte>, k: nat, isFloat: FloatSyntax)
    requires ParseReply(buf, isFloat).Value? && k <= |buf|
    ensures var p := ParseReply(buf, isFloat);
            ParseReply(buf[..k], isFloat) == if k < p.used then NeedMore else p
  {
    if ParseReply(buf, isFloat).used <= k {
      ParseReplyOfPrefix(buf, k, isFloat);
    } else if ParseReply(buf[..k], isFloat).Decided() {
      assert buf[..k] + buf[k..] == buf;
      ParseReplyStable(buf[..k], buf[k..], isFloat);
      assert false;
    }
  }

  // --- Size of a parsed reply ----------------------------------------------------

  /** The replies in r, itself included. */
  function Nodes(r: Reply): nat
    decreases r, 1
  {
    match r
    case Array(items) => 1 + NodesOfAll(items)
    case Set(items) => 1 + NodesOfAll(items)
    case Push(items) => 1 + NodesOfAll(items)
    case Map(pairs) => 1 + NodesOfPairs(pairs)
    case _ => 1
  }

  function NodesOfAll(rs: seq<Reply>): nat
    decreases rs, 0
  {
    if rs == [] then 0 else Nodes(rs[0]) + NodesOfAll(rs[1..])
  }

  function NodesOfPair(p: Pair): nat
    decreases p, 2
  {
    Nodes(p.key) + Nodes(p.val)
  }

  function NodesOfPairs(ps: seq<Pair>): nat
    decreases ps, 0
  {
    if ps == [] then 0 else NodesOfPair(ps[0]) + NodesOfPairs(ps[1..])
  }

  lemma {:induction false} NodesOfPairedUp(items: seq<Reply>)
    requires |items| % 2 == 0
    ensures NodesOfPairs(PairUp(items)) == NodesOfAll(items)
  {
    if items != [] {
      NodesOfPairedUp(items[2..]);
      assert PairUp(items)[1..] == PairUp(items[2..]);
      assert items[1..][1..] == items[2..];
    }
  }

  lemma {:induction false} NodesOfCons(r: Reply, rs: seq<Reply>)
    ensures NodesOfAll([r] + rs) == Nodes(r) + NodesOfAll(rs)
  {
    assert ([r] + rs)[1..] == rs;
  }

  lemma {:induction false} ItemsBound(buf: seq<Byte>, count: nat, isFloat: FloatSyntax)
    requires ParseItems(buf, count, isFloat).Value?
    ensures 3 * NodesOfAll(ParseItems(buf, count, isFloat).value) <= ParseItems(buf, count, isFloat).used
    decreases |buf|, 3, count
  {
    hide ParseReply, Nodes;
    if count > 0 {
      ReplyBound(buf, isFloat);
      var u := ParseReply(buf, isFloat).used;
      ItemsBound(buf[u..], count - 1, isFloat);
      NodesOfCons(ParseReply(buf, isFloat).value, ParseItems(buf[u..], count - 1, isFloat).value);
    }
  }

  lemma {:induction false} AggReplyBound(buf: seq<Byte>, kind: AggKind, isFloat: FloatSyntax)
    requires buf != [] && AggReply(buf, kind, isFloat).Value?
    ensures var p := AggReply(buf, kind, isFloat); 3 * Nodes(p.value) <= p.used
    decreases |buf|, 0
  {
    var h := Header(buf);
    if h.value >= 0 {
      ItemsBound(buf[h.used..], h.value, isFloat);
    }
  }

  lemma {:induction false} MapReplyBound(buf: seq<Byte>, isFloat: FloatSyntax)
    requires buf != [] && MapReply(buf, isFloat).Value?
    ensures var p := MapReply(buf, isFloat); 3 * Nodes(p.value) <= p.used
    decreases |buf|, 0
  {
    var h := Header(buf);
    ItemsBound(buf[h.used..], 2 * h.value, isFloat);
    var items := ParseItems(buf[h.used..], 2 * h.value, isFloat).value;
    assert [] + items == items;
    NodesOfPairedUp(items);
  }

  /** A reply consumes 3 to |buf| bytes and holds at most a third as many nodes, whatever its headers declare. */
  lemma {:induction false} ReplyBound(buf: seq<Byte>, isFloat: FloatSyntax)
    requires ParseReply(buf, isFloat).Value?
    ensures var p := ParseReply(buf, isFloat); 3 <= p.used <= |buf| && 3 * Nodes(p.value) <= p.used
    decreases |buf|, 2
  {
    hide AggReply, MapEntries, Header, LineText, Payload, NodesOfAll, NodesOfPairs;
    var tag := buf[0];
    if tag == 42 {
      AggReplyBound(buf, ArrayAgg, isFloat);
    } else if tag == 126 {
      AggReplyBound(buf, SetAgg, isFloat);
    } else if tag == 62 {
      AggReplyBound(buf, PushAgg, isFloat);
    } else if tag == 37 {
      MapReplyBound(buf, isFloat);
    } else if tag == 124 {
      ReplyBound(buf[MapEntries(buf, isFloat).used..], isFloat);
    }
  }
}
