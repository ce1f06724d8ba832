/** The pub/sub consumer over a RESP connection: bindings/go/subscriber.go. */
module Subscriber {
  import opened Bytes
  import opened Resp
  import opened RespConn
  import RespPrint

  datatype Kind = EventSubscribe | EventPsubscribe | EventUnsubscribe | EventPunsubscribe | EventMessage | EventPmessage

  /** A received frame. An absent name and an empty one are the same nil slice. */
  datatype Event = Event(kind: Kind, channel: seq<Byte>, pattern: seq<Byte>, payload: seq<Byte>, count: int)

  function Name(kind: Kind): seq<Byte> {
    match kind
    case EventSubscribe => [115, 117, 98, 115, 99, 114, 105, 98, 101]
    case EventPsubscribe => [112, 115, 117, 98, 115, 99, 114, 105, 98, 101]
    case EventUnsubscribe => [117, 110, 115, 117, 98, 115, 99, 114, 105, 98, 101]
    case EventPunsubscribe => [112, 117, 110, 115, 117, 98, 115, 99, 114, 105, 98, 101]
    case EventMessage => [109, 101, 115, 115, 97, 103, 101]
    case EventPmessage => [112, 109, 101, 115, 115, 97, 103, 101]
  }

  // --- Frames to events --------------------------------------------------------------------

  function AckEvent(kind: Kind, items: seq<Reply>, pattern: bool): Option<Event> {
    if |items| != 3 then None
    else if !(items[1].Bulk? || items[1].Nil? || items[1].Null?) || !items[2].Int? then None
    else
      var name := if items[1].Bulk? then items[1].bytes else [];
      Some(if pattern then Event(kind, [], name, [], items[2].n) else Event(kind, name, [], [], items[2].n))
  }

  function ShapeEvent(kind: seq<Byte>, items: seq<Reply>): Option<Event> {
    if kind == Name(EventSubscribe) then AckEvent(EventSubscribe, items, false)
    else if kind == Name(EventPsubscribe) then AckEvent(EventPsubscribe, items, true)
    else if kind == Name(EventUnsubscribe) then AckEvent(EventUnsubscribe, items, false)
    else if kind == Name(EventPunsubscribe) then AckEvent(EventPunsubscribe, items, true)
    else if kind == Name(EventMessage) then
      if |items| != 3 || !items[1].Bulk? || !items[2].Bulk? then None
      else Some(Event(EventMessage, items[1].bytes, [], items[2].bytes, 0))
    else if kind == Name(EventPmessage) then
      if |items| != 4 || !items[1].Bulk? || !items[2].Bulk? || !items[3].Bulk? then None
      else Some(Event(EventPmessage, items[2].bytes, items[1].bytes, items[3].bytes, 0))
    else None
  }

  /** classifyFrame: a RESP2 array or a RESP3 push. */
  function Classify(r: Reply): Option<Event> {
    if !r.Array? && !r.Push? then None
    else if r.items == [] || !r.items[0].Bulk? then None
    else ShapeEvent(r.items[0].bytes, r.items)
  }

  /** The items of the frame that a server sends for an event. */
  function Items(ev: Event): seq<Reply> {
    match ev.kind
    case EventMessage => [Bulk(Name(ev.kind)), Bulk(ev.channel), Bulk(ev.payload)]
    case EventPmessage => [Bulk(Name(ev.kind)), Bulk(ev.pattern), Bulk(ev.channel), Bulk(ev.payload)]
    case EventSubscribe => [Bulk(Name(ev.kind)), Bulk(ev.channel), Int(ev.count)]
    case EventUnsubscribe => [Bulk(Name(ev.kind)), Bulk(ev.channel), Int(ev.count)]
    case EventPsubscribe => [Bulk(Name(ev.kind)), Bulk(ev.pattern), Int(ev.count)]
    case EventPunsubscribe => [Bulk(Name(ev.kind)), Bulk(ev.pattern), Int(ev.count)]
  }

  /** An event that leaves out the fields its kind does not carry. */
  predicate Shaped(ev: Event) {
    match ev.kind
    case EventMessage => ev.pattern == [] && ev.count == 0
    case EventPmessage => ev.count == 0
    case EventSubscribe => ev.pattern == [] && ev.payload == []
    case EventUnsubscribe => ev.pattern == [] && ev.payload == []
    case EventPsubscribe => ev.channel == [] && ev.payload == []
    case EventPunsubscribe => ev.channel == [] && ev.payload == []
  }

  lemma {:induction false} NamesDiffer(a: Kind, b: Kind)
    ensures Name(a) == Name(b) <==> a == b
  {
    assert Name(a) == Name(b) ==> |Name(a)| == |Name(b)| && Name(a)[0] == Name(b)[0];
  }

  /** Both delivery shapes of an event classify to it. */
  lemma {:induction false} ClassifyInvertsFrames(ev: Event)
    ensures Shaped(ev) ==> Classify(Array(Items(ev))) == Some(ev) && Classify(Push(Items(ev))) == Some(ev)
  {
    NamesDiffer(ev.kind, EventSubscribe);
    NamesDiffer(ev.kind, EventPsubscribe);
    NamesDiffer(ev.kind, EventUnsubscribe);
    NamesDiffer(ev.kind, EventPunsubscribe);
    NamesDiffer(ev.kind, EventMessage);
  }

  function NameText(kind: Kind): string {
    match kind
    case EventSubscribe => "subscribe"
    case EventPsubscribe => "psubscribe"
    case EventUnsubscribe => "unsubscribe"
    case EventPunsubscribe => "punsubscribe"
    case EventMessage => "message"
    case EventPmessage => "pmessage"
  }

  /** Each kind's name on the wire is its word in ASCII. */
  lemma {:induction false} NamesAreAscii(kind: Kind)
    ensures |Name(kind)| == |NameText(kind)| && forall i :: 0 <= i < |Name(kind)| ==> Name(kind)[i] == NameText(kind)[i] as int
  {
    if Acknowledges(kind) {
      hide Name, NameText;
      AckNames(kind);
    } else {
      assert NameText(kind)[|NameText(kind)| - 1] == 'e';
    }
  }

  lemma {:induction false} AckNames(kind: Kind)
    requires Acknowledges(kind)
    ensures |Name(kind)| == |NameText(kind)| && forall i :: 0 <= i < |Name(kind)| ==> Name(kind)[i] == NameText(kind)[i] as int
  {
    assert NameText(kind)[|NameText(kind)| - 1] == 'e';
  }

  predicate Acknowledges(kind: Kind) {
    kind != EventMessage && kind != EventPmessage
  }

  /** The frame's items are the event's own; only an acknowledgement's empty name may be a nil or a null instead. */
  predicate Carries(items: seq<Reply>, ev: Event) {
    && |items| == |Items(ev)|
    && forall i :: 0 <= i < |items| ==>
         || items[i] == Items(ev)[i]
         || (i == 1 && Acknowledges(ev.kind) && Items(ev)[1] == Bulk([]) && (items[1] == Nil || items[1] == Null))
  }

  /** A frame is an event exactly when it is an array or a push of that event's items. */
  lemma {:induction false} ClassifyExactly(r: Reply, ev: Event)
    ensures Classify(r) == Some(ev) <==> (r.Array? || r.Push?) && Shaped(ev) && Carries(r.items, ev)
  {
    if Classify(r) == Some(ev) {
      ClassifiedCarries(r);
    }
    if (r.Array? || r.Push?) && Shaped(ev) && Carries(r.items, ev) {
      CarriedIsClassified(r, ev);
    }
  }

  lemma {:induction false} ClassifiedCarries(r: Reply)
    requires Classify(r).Some?
    ensures Shaped(Classify(r).value) && Carries(r.items, Classify(r).value)
  {
    hide Name;
    var ev := Classify(r).value;
    assert r.items[0] == Bulk(Name(ev.kind));
  }

  lemma {:induction false} CarriedIsClassified(r: Reply, ev: Event)
    requires (r.Array? || r.Push?) && Shaped(ev) && Carries(r.items, ev)
    ensures Classify(r) == Some(ev)
  {
    hide Name;
    NamesDiffer(ev.kind, EventSubscribe);
    NamesDiffer(ev.kind, EventPsubscribe);
    NamesDiffer(ev.kind, EventUnsubscribe);
    NamesDiffer(ev.kind, EventPunsubscribe);
    NamesDiffer(ev.kind, EventMessage);
    assert r.items[0] == Items(ev)[0] == Bulk(Name(ev.kind));
    assert r.items[1] == Items(ev)[1] || Items(ev)[1] == Bulk([]);
    assert r.items[2] == Items(ev)[2];
  }

  /** Only a shaped event ever comes out, from a frame of its kind's name and length. */
  lemma {:induction false} ClassifiedIsShaped(r: Reply)
    requires Classify(r).Some?
    ensures var ev := Classify(r).value; Shaped(ev) && r.items[0] == Bulk(Name(ev.kind)) && |r.items| == |Items(ev)|
  {
  }

  // --- The event stream --------------------------------------------------------------------

  /** The events of a byte stream, up to the first frame that is incomplete or is no event. */
  function Events(bytes: seq<Byte>, isFloat: FloatSyntax): seq<Event>
    decreases |bytes|
  {
    match ParseReply(bytes, isFloat)
    case Value(r, used) =>
      (match Classify(r)
       case Some(ev) => [ev] + Events(bytes[used..], isFloat)
       case None => [])
    case _ => []
  }

  /** The frames of a run of events, each in either delivery shape. */
  function Frames(evs: seq<Event>, pushed: seq<bool>): seq<Reply>
    requires |pushed| == |evs|
  {
    if evs == [] then [] else [if pushed[0] then Push(Items(evs[0])) else Array(Items(evs[0]))] + Frames(evs[1..], pushed[1..])
  }

  predicate Sendable(ev: Event) {
    Shaped(ev) && MIN_INT <= ev.count <= MAX_INT
  }

  lemma {:induction false} ItemsWellFormed(ev: Event, isFloat: FloatSyntax)
    requires Sendable(ev)
    ensures RespPrint.AllWellFormed(Items(ev), isFloat)
  {
    PlainItemsWellFormed(Items(ev), isFloat);
  }

  lemma {:induction false} PlainItemsWellFormed(items: seq<Reply>, isFloat: FloatSyntax)
    requires forall i :: 0 <= i < |items| ==> items[i].Bulk? || (items[i].Int? && MIN_INT <= items[i].n <= MAX_INT)
    ensures RespPrint.AllWellFormed(items, isFloat)
  {
    if items != [] {
      PlainItemsWellFormed(items[1..], isFloat);
    }
  }

  /** Events that a server prints, mixing both shapes, are the events a consumer reads. */
  lemma {:induction false} PrintedEventsArrive(evs: seq<Event>, pushed: seq<bool>, isFloat: FloatSyntax)
    requires |pushed| == |evs| && forall i :: 0 <= i < |evs| ==> Sendable(evs[i])
    requires |RespPrint.PrintAll(Frames(evs, pushed))| <= MAX_INT
    ensures Events(RespPrint.PrintAll(Frames(evs, pushed)), isFloat) == evs
  {
    hide ParseReply, Classify, RespPrint.Print, Items, RespPrint.AllWellFormed;
    if evs == [] {
      EmptyNeedsMore(isFloat);
    } else {
      var frame := if pushed[0] then Push(Items(evs[0])) else Array(Items(evs[0]));
      var tail := Frames(evs[1..], pushed[1..]);
      assert ([frame] + tail)[1..] == tail;
      var head, rest := RespPrint.Print(frame), RespPrint.PrintAll(tail);
      var bytes := RespPrint.PrintAll(Frames(evs, pushed));
      assert bytes == head + rest;
      ItemsWellFormed(evs[0], isFloat);
      RespPrint.PrintedParses(frame, rest, isFloat);
      ClassifyInvertsFrames(evs[0]);
      assert bytes[|head|..] == rest;
      PrintedEventsArrive(evs[1..], pushed[1..], isFloat);
    }
  }

  lemma {:induction false} EmptyNeedsMore(isFloat: FloatSyntax)
    ensures ParseReply([], isFloat).NeedMore?
  {
  }

  /** What a consumer still has to hand out: queued events, then those on the wire. */
  datatype Feed = Feed(pending: seq<Event>, wire: seq<Event>)

  function Count(evs: seq<Event>, kind: Kind): nat {
    if evs == [] then 0 else (if evs[0].kind == kind then 1 else 0) + Count(evs[1..], kind)
  }

  /** How many frames bring n acks of a kind. */
  function AckPoint(wire: seq<Event>, n: nat, kind: Kind): (m: Option<nat>)
    ensures m.Some? ==> m.value <= |wire|
  {
    if n == 0 then Some(0)
    else if wire == [] then None
    else
      match AckPoint(wire[1..], if wire[0].kind == kind then n - 1 else n, kind)
      case Some(m) => Some(m + 1)
      case None => None
  }

  /** awaitAcks: None where the wire ends first. */
  function Await(f: Feed, n: nat, kind: Kind): Option<Feed>
    decreases |f.wire|
  {
    if n == 0 then Some(f)
    else if f.wire == [] then None
    else
      var ev := f.wire[0];
      Await(Feed(f.pending + [ev], f.wire[1..]), if ev.kind == kind then n - 1 else n, kind)
  }

  function Receive(f: Feed): Option<(Event, Feed)> {
    if f.pending != [] then Some((f.pending[0], Feed(f.pending[1..], f.wire)))
    else if f.wire != [] then Some((f.wire[0], Feed([], f.wire[1..])))
    else None
  }

  predicate IsMessage(ev: Event) {
    ev.kind == EventMessage || ev.kind == EventPmessage
  }

  function ReceiveMessage(f: Feed): Option<(Event, Feed)>
    decreases |f.pending| + |f.wire|
  {
    match Receive(f)
    case None => None
    case Some((ev, rest)) => if IsMessage(ev) then Some((ev, rest)) else ReceiveMessage(rest)
  }

  lemma {:induction false} AckPointIsFirst(wire: seq<Event>, n: nat, kind: Kind)
    ensures AckPoint(wire, n, kind).Some? <==> Count(wire, kind) >= n
    ensures AckPoint(wire, n, kind).Some? ==>
              var m := AckPoint(wire, n, kind).value;
              Count(wire[..m], kind) == n && (n == 0 ==> m == 0) && (n > 0 ==> m > 0 && wire[m - 1].kind == kind)
  {
    if n > 0 && wire != [] {
      var left := if wire[0].kind == kind then n - 1 else n;
      AckPointIsFirst(wire[1..], left, kind);
      if AckPoint(wire[1..], left, kind).Some? {
        var m := AckPoint(wire[1..], left, kind).value;
        assert wire[..m + 1][1..] == wire[1..][..m];
      }
    }
  }

  lemma {:induction false} AwaitStopsAtAckPoint(f: Feed, n: nat, kind: Kind)
    ensures Await(f, n, kind) == match AckPoint(f.wire, n, kind)
                                 case Some(m) => Some(Feed(f.pending + f.wire[..m], f.wire[m..]))
                                 case None => None
    decreases |f.wire|
  {
    if n == 0 {
      assert f.pending + f.wire[..0] == f.pending;
    } else if f.wire != [] {
      var ev := f.wire[0];
      var left := if ev.kind == kind then n - 1 else n;
      AwaitStopsAtAckPoint(Feed(f.pending + [ev], f.wire[1..]), left, kind);
      if AckPoint(f.wire[1..], left, kind).Some? {
        var m := AckPoint(f.wire[1..], left, kind).value;
        assert f.pending + [ev] + f.wire[1..][..m] == f.pending + f.wire[..m + 1];
        assert f.wire[1..][m..] == f.wire[m + 1..];
      }
    }
  }

  /** What an await read: m frames with n acks among them, the last of them an ack. */
  predicate ReadAcks(f: Feed, g: Feed, m: nat, n: nat, kind: Kind) {
    && m <= |f.wire| && g == Feed(f.pending + f.wire[..m], f.wire[m..])
    && Count(f.wire[..m], kind) == n && (n > 0 ==> m > 0 && f.wire[m - 1].kind == kind) && (n == 0 ==> m == 0)
  }

  /**
   A subscribe of n names succeeds exactly when the wire brings n acks of its kind; it then has
   read up to the n-th of them and not one frame further, and queued all it read in order.
   */
  lemma {:induction false} AwaitReadsExactlyTheAcks(f: Feed, n: nat, kind: Kind)
    ensures Await(f, n, kind).Some? <==> Count(f.wire, kind) >= n
    ensures Await(f, n, kind).Some? ==> exists m :: ReadAcks(f, Await(f, n, kind).value, m, n, kind)
  {
    AckPointIsFirst(f.wire, n, kind);
    AwaitStopsAtAckPoint(f, n, kind);
    if Await(f, n, kind).Some? {
      assert ReadAcks(f, Await(f, n, kind).value, AckPoint(f.wire, n, kind).value, n, kind);
    }
  }

  // --- Runs ------------------------------------------------------------------------------------

  datatype Op = Subscribing(n: nat, kind: Kind) | Unsubscribing | Receiving | ReceivingMessage

  /** A consumer's feed and everything it has handed out. */
  datatype Session = Session(feed: Feed, handed: seq<Event>)

  /** One operation; None where it fails. A message receive hands out the message and drops the acks before it. */
  function Perform(s: Session, op: Op): Option<Session> {
    match op
    case Subscribing(n, kind) =>
      (match Await(s.feed, n, kind)
       case Some(f) => Some(s.(feed := f))
       case None => None)
    case Unsubscribing => Some(s)
    case Receiving =>
      (match Receive(s.feed)
       case Some((ev, f)) => Some(Session(f, s.handed + [ev]))
       case None => None)
    case ReceivingMessage =>
      (match ReceiveMessage(s.feed)
       case Some((ev, f)) => Some(Session(f, s.handed + [ev]))
       case None => None)
  }

  function PerformAll(s: Session, ops: seq<Op>): Option<Session>
    decreases |ops|
  {
    if ops == [] then Some(s)
    else
      match Perform(s, ops[0])
      case Some(t) => PerformAll(t, ops[1..])
      case None => None
  }

  function Stream(f: Feed): seq<Event> {
    f.pending + f.wire
  }

  lemma {:induction false} AwaitKeepsStream(f: Feed, n: nat, kind: Kind)
    requires Await(f, n, kind).Some?
    ensures Stream(Await(f, n, kind).value) == Stream(f)
  {
    AwaitStopsAtAckPoint(f, n, kind);
    var m := AckPoint(f.wire, n, kind).value;
    assert f.pending + f.wire[..m] + f.wire[m..] == f.pending + f.wire;
  }

  lemma {:induction false} ReceiveTakesTheFirst(f: Feed)
    ensures Receive(f).Some? <==> Stream(f) != []
    ensures Receive(f).Some? ==> Receive(f).value.0 == Stream(f)[0] && Stream(Receive(f).value.1) == Stream(f)[1..]
  {
  }

  /**
   Event conservation: over every error-free run of subscribes, unsubscribes and receives, the
   events handed out, then the queue, then the wire are the original stream.
   */
  lemma {:induction false} EventsAreConserved(s: Session, ops: seq<Op>)
    requires ReceivingMessage !in ops && PerformAll(s, ops).Some?
    ensures var t := PerformAll(s, ops).value; t.handed + Stream(t.feed) == s.handed + Stream(s.feed)
    decreases |ops|
  {
    hide Await;
    if ops != [] {
      var t := Perform(s, ops[0]).value;
      assert t.handed + Stream(t.feed) == s.handed + Stream(s.feed) by {
        match ops[0]
        case Subscribing(n, kind) => AwaitKeepsStream(s.feed, n, kind);
        case Unsubscribing =>
        case Receiving =>
          ReceiveTakesTheFirst(s.feed);
          var ev := Receive(s.feed).value.0;
          assert Stream(s.feed) == [ev] + Stream(t.feed);
          assert s.handed + [ev] + Stream(t.feed) == s.handed + ([ev] + Stream(t.feed));
      }
      EventsAreConserved(t, ops[1..]);
    }
  }

  /** The messages and pattern messages of a stream, in order. */
  function Messages(evs: seq<Event>): seq<Event> {
    if evs == [] then []
    else (if IsMessage(evs[0]) then [evs[0]] else []) + Messages(evs[1..])
  }

  lemma {:induction false} ReceiveMessageTakesTheFirst(f: Feed)
    ensures ReceiveMessage(f).Some? <==> Messages(Stream(f)) != []
    ensures ReceiveMessage(f).Some? ==>
              var (ev, g) := ReceiveMessage(f).value; Messages(Stream(f)) == [ev] + Messages(Stream(g))
    decreases |f.pending| + |f.wire|
  {
    ReceiveTakesTheFirst(f);
    if Receive(f).Some? {
      var (ev, g) := Receive(f).value;
      if !IsMessage(ev) {
        ReceiveMessageTakesTheFirst(g);
      }
    }
  }

  /**
   A message receive passes over the acknowledgements before the first message or pattern message,
   hands that one out, and leaves what follows it.
   */
  lemma {:induction false} AcknowledgementsArePassedOver(f: Feed, k: nat)
    requires k < |Stream(f)| && Stream(f)[k].kind in {EventMessage, EventPmessage}
    requires forall i :: 0 <= i < k ==> Stream(f)[i].kind !in {EventMessage, EventPmessage}
    ensures ReceiveMessage(f).Some? && ReceiveMessage(f).value.0 == Stream(f)[k]
    ensures Stream(ReceiveMessage(f).value.1) == Stream(f)[k + 1..]
    decreases |f.pending| + |f.wire|
  {
    ReceiveTakesTheFirst(f);
    var (ev, g) := Receive(f).value;
    assert Stream(f)[0] == ev && Stream(f)[1..] == Stream(g);
    if k > 0 {
      assert forall i :: 0 <= i < k - 1 ==> Stream(g)[i] == Stream(f)[i + 1];
      AcknowledgementsArePassedOver(g, k - 1);
      assert Stream(g)[k..] == Stream(f)[k + 1..];
    }
  }

  /** Receiving messages alone, among any subscribes and unsubscribes, hands out the message subsequence in order. */
  lemma {:induction false} MessagesAreConserved(s: Session, ops: seq<Op>)
    requires Receiving !in ops && PerformAll(s, ops).Some?
    ensures var t := PerformAll(s, ops).value;
            t.handed + Messages(Stream(t.feed)) == s.handed + Messages(Stream(s.feed))
    decreases |ops|
  {
    hide Await, ReceiveMessage, Messages;
    if ops != [] {
      var t := Perform(s, ops[0]).value;
      assert t.handed + Messages(Stream(t.feed)) == s.handed + Messages(Stream(s.feed)) by {
        match ops[0]
        case Subscribing(n, kind) => AwaitKeepsStream(s.feed, n, kind);
        case Unsubscribing =>
        case ReceivingMessage =>
          ReceiveMessageTakesTheFirst(s.feed);
          var ev := ReceiveMessage(s.feed).value.0;
          assert s.handed + [ev] + Messages(Stream(t.feed)) == s.handed + ([ev] + Messages(Stream(t.feed)));
      }
      MessagesAreConserved(t, ops[1..]);
    }
  }

  // --- The consumer as the source keeps it ----------------------------------------------------------

  /** A remote subscriber: its connection and its queue. */
  class RemoteSubscriber {
    const remote: Conn
    var pending: seq<Event>

    constructor (remote: Conn)
      ensures this.remote == remote && pending == []
    {
      this.remote, pending := remote, [];
    }

    ghost function View(): Feed
      reads this, remote
    {
      Feed(pending, Events(remote.Unread(), remote.isFloat))
    }

    /** The next frame of the wire as an event. */
    method NextEvent() returns (ev: Option<Event>)
      modifies remote`rbuf, remote`incoming, remote`open
      ensures old(remote.open) ==> (ev.Some? <==> old(View()).wire != [])
      ensures ev.Some? ==> old(View()).wire != [] && ev.value == old(View()).wire[0]
                           && Events(remote.Unread(), remote.isFloat) == old(View()).wire[1..]
      ensures ev.Some? ==> remote.open
    {
      hide ParseReply, Classify;
      var r := remote.ReadReply();
      if r.Err? {
        return None;
      }
      ev := Classify(r.value);
    }

    /** awaitAcks */
    method AwaitAcks(n: nat, kind: Kind) returns (ok: bool)
      modifies this, remote`rbuf, remote`incoming, remote`open
      ensures old(remote.open) ==> (ok <==> Await(old(View()), n, kind).Some?)
      ensures ok ==> Await(old(View()), n, kind) == Some(View())
      ensures !ok ==> old(pending) <= pending && (old(remote.open) ==> pending == Stream(old(View())))
    {
      hide Events;
      var left := n;
      while left > 0
        invariant Await(View(), left, kind) == Await(old(View()), n, kind)
        invariant old(remote.open) ==> remote.open
        invariant old(pending) <= pending && Stream(View()) == Stream(old(View()))
        decreases |View().wire|
      {
        ghost var f := View();
        var ev := NextEvent();
        if ev.None? {
          assert old(remote.open) ==> f.wire == [] && Stream(f) == f.pending;
          return false;
        }
        if ev.value.kind == kind {
          left := left - 1;
        }
        pending := pending + [ev.value];
        assert f.pending + f.wire == f.pending + [f.wire[0]] + f.wire[1..];
      }
      return true;
    }

    /** Recv */
    method Recv() returns (ev: Option<Event>)
      modifies this, remote`rbuf, remote`incoming, remote`open
      ensures old(remote.open) ==> (ev.Some? <==> Receive(old(View())).Some?)
      ensures ev.Some? ==> Receive(old(View())) == Some((ev.value, View()))
      ensures old(remote.open) && ev.Some? ==> remote.open
    {
      hide Events;
      if |pending| > 0 {
        ev := Some(pending[0]);
        pending := pending[1..];
        return;
      }
      ev := NextEvent();
    }

    /** RecvMessage */
    method RecvMessage() returns (ev: Option<Event>)
      modifies this, remote`rbuf, remote`incoming, remote`open
      ensures old(remote.open) ==> (ev.Some? <==> ReceiveMessage(old(View())).Some?)
      ensures ev.Some? ==> ReceiveMessage(old(View())) == Some((ev.value, View()))
    {
      hide Events;
      while true
        invariant ReceiveMessage(View()) == ReceiveMessage(old(View()))
        invariant old(remote.open) ==> remote.open
        decreases |View().pending| + |View().wire|
      {
        ReceiveTakesTheFirst(View());
        ev := Recv();
        if ev.None? || IsMessage(ev.value) {
          return;
        }
      }
    }

    /** Subscribe and Psubscribe: a write, then the acks; no names is refused before the write. */
    method SubscribeTo(verb: seq<Byte>, names: Argv, kind: Kind) returns (ok: bool)
      modifies this, remote
      ensures names == [] ==> !ok && View() == old(View()) && remote.sent == old(remote.sent)
      ensures names != [] && old(remote.open) && old(remote.Takes(RespPrint.Print(Command([verb] + names)))) ==>
                && remote.sent == old(remote.sent) + RespPrint.Print(Command([verb] + names))
                && (ok <==> Await(old(View()), |names|, kind).Some?)
      ensures ok ==> Await(old(View()), |names|, kind) == Some(View())
    {
      if names == [] {
        return false;
      }
      var w := remote.Write([verb] + names);
      if w.Err? {
        return false;
      }
      ok := AwaitAcks(|names|, kind);
    }
  }
}
