/**
 The buffered RESP connection of bindings/go/resp_conn.go and the pipeline buffer of
 bindings/go/pipeline.go. The socket is the list of what its reads return; deadlines and
 cancellation are left out.
 */
module RespConn {
  import opened Bytes
  import opened Resp
  import opened RespLaws
  import opened RespPrint
  import opened RespParser

  datatype IoError = Eof | OtherIo

  /** What one conn.Read returns: some bytes, or none and perhaps an error. */
  datatype Read = Read(bytes: seq<Byte>, error: Option<IoError>)

  datatype Fault = Closed | Io | Protocol | Panicked | InvalidInput
  datatype Answer<+T> = Ok(value: T) | Err(fault: Fault)

  /** A read that ends the connection: no bytes and an error. */
  predicate Fatal(r: Read) {
    r.bytes == [] && r.error.Some?
  }

  /** Every byte the reads deliver before the connection ends, however they are cut. */
  function Wire(incoming: seq<Read>): seq<Byte> {
    if incoming == [] || Fatal(incoming[0]) then []
    else incoming[0].bytes + Wire(incoming[1..])
  }

  function FaultOf(e: IoError): Fault {
    if e.Eof? then Closed else Io
  }

  /** The reads end at the end of the stream, and not in another error. */
  predicate EndsInEof(incoming: seq<Read>) {
    if incoming == [] then true
    else if incoming[0].bytes == [] && incoming[0].error == Some(OtherIo) then false
    else (incoming[0].bytes == [] && incoming[0].error == Some(Eof)) || EndsInEof(incoming[1..])
  }

  /** What readOne leaves: its answer, the unread buffer and the unread input. */
  datatype Step = Step(answer: Answer<Reply>, rbuf: seq<Byte>, incoming: seq<Read>)

  /** readOne as the source runs it: parse the buffer again after every read. */
  function ReadOneFrom(rbuf: seq<Byte>, incoming: seq<Read>, isFloat: FloatSyntax): Step
    decreases |incoming|
  {
    match ParseReply(rbuf, isFloat)
    case Malformed => Step(Err(Protocol), rbuf, incoming)
    case Panic => Step(Err(Panicked), rbuf, incoming)
    case Value(r, used) => Step(Ok(r), rbuf[used..], incoming)
    case NeedMore =>
      if incoming == [] then Step(Err(Closed), rbuf, [])
      else if Fatal(incoming[0]) then Step(Err(FaultOf(incoming[0].error.value)), rbuf, incoming[1..])
      else ReadOneFrom(rbuf + incoming[0].bytes, incoming[1..], isFloat)
  }

  /** Nothing is lost or duplicated, and the answer is the one the whole stream gives. */
  lemma {:induction false} ReadOneFollowsStream(rbuf: seq<Byte>, incoming: seq<Read>, isFloat: FloatSyntax)
    ensures var whole := rbuf + Wire(incoming);
            var p := ParseReply(whole, isFloat);
            var s := ReadOneFrom(rbuf, incoming, isFloat);
            && (p.Value? ==> s.answer == Ok(p.value) && s.rbuf + Wire(s.incoming) == whole[p.used..])
            && (p.Malformed? ==> s.answer == Err(Protocol) && s.rbuf + Wire(s.incoming) == whole)
            && (p.Panic? ==> s.answer == Err(Panicked) && s.rbuf + Wire(s.incoming) == whole)
            && (p.NeedMore? ==> s.answer == Err(if EndsInEof(incoming) then Closed else Io) && s.rbuf == whole)
    decreases |incoming|
  {
    hide ParseReply;
    var whole := rbuf + Wire(incoming);
    var now := ParseReply(rbuf, isFloat);
    if now.Decided() {
      ParseReplyStable(rbuf, Wire(incoming), isFloat);
      if now.Value? {
        assert whole[now.used..] == rbuf[now.used..] + Wire(incoming);
      }
    } else if incoming == [] || Fatal(incoming[0]) {
      assert whole == rbuf;
    } else {
      assert whole == rbuf + incoming[0].bytes + Wire(incoming[1..]);
      ReadOneFollowsStream(rbuf + incoming[0].bytes, incoming[1..], isFloat);
    }
  }

  datatype Run = Run(answer: Answer<seq<Reply>>, rbuf: seq<Byte>, incoming: seq<Read>)

  /** roundtrip's reading loop: n replies, or the first failure. */
  function ReadManyFrom(rbuf: seq<Byte>, incoming: seq<Read>, n: nat, isFloat: FloatSyntax): Run
    decreases n
  {
    if n == 0 then Run(Ok([]), rbuf, incoming)
    else
      var s := ReadOneFrom(rbuf, incoming, isFloat);
      if s.answer.Err? then Run(Err(s.answer.fault), s.rbuf, s.incoming)
      else
        var rest := ReadManyFrom(s.rbuf, s.incoming, n - 1, isFloat);
        if rest.answer.Err? then rest
        else rest.(answer := Ok([s.answer.value] + rest.answer.value))
  }

  /** n replies read off a connection are the n replies of its whole byte stream. */
  lemma {:induction false} ReadManyFollowsStream(rbuf: seq<Byte>, incoming: seq<Read>, n: nat, isFloat: FloatSyntax)
    ensures var whole := rbuf + Wire(incoming);
            var p := ParseItems(whole, n, isFloat);
            var s := ReadManyFrom(rbuf, incoming, n, isFloat);
            && (p.Value? ==> s.answer == Ok(p.value) && s.rbuf + Wire(s.incoming) == whole[p.used..])
            && (p.Malformed? ==> s.answer == Err(Protocol))
            && (p.Panic? ==> s.answer == Err(Panicked))
            && (p.NeedMore? ==> s.answer in {Err(Closed), Err(Io)})
    decreases n
  {
    hide ParseReply, ReadOneFrom;
    if n > 0 {
      var whole := rbuf + Wire(incoming);
      ReadOneFollowsStream(rbuf, incoming, isFloat);
      var p := ParseReply(whole, isFloat);
      if p.Value? {
        var s := ReadOneFrom(rbuf, incoming, isFloat);
        ReadManyFollowsStream(s.rbuf, s.incoming, n - 1, isFloat);
        var q := ParseItems(whole[p.used..], n - 1, isFloat);
        if q.Value? {
          assert whole[p.used..][q.used..] == whole[p.used + q.used..];
        }
      }
    }
  }

  /**
   Segmentation independence: two connections that receive the same bytes, cut into reads in
   any two ways, return the same replies in the same order and leave the same bytes unread.
   */
  lemma {:induction false} SegmentationIndependence(buf1: seq<Byte>, in1: seq<Read>, buf2: seq<Byte>, in2: seq<Read>, n: nat,
                                 isFloat: FloatSyntax)
    requires buf1 + Wire(in1) == buf2 + Wire(in2)
    ensures var a := ReadManyFrom(buf1, in1, n, isFloat);
            var b := ReadManyFrom(buf2, in2, n, isFloat);
            && (a.answer.Ok? <==> b.answer.Ok?)
            && (a.answer.Ok? ==> a.answer == b.answer && a.rbuf + Wire(a.incoming) == b.rbuf + Wire(b.incoming))
            && (a.answer == Err(Protocol) <==> b.answer == Err(Protocol))
            && (a.answer == Err(Panicked) <==> b.answer == Err(Panicked))
  {
    hide ParseItems, ReadManyFrom;
    ReadManyFollowsStream(buf1, in1, n, isFloat);
    ReadManyFollowsStream(buf2, in2, n, isFloat);
  }

  /** A server that prints rs is heard as rs, whatever the cuts and whatever follows. */
  lemma {:induction false} PrintedRepliesArrive(rs: seq<Reply>, rest: seq<Byte>, incoming: seq<Read>, isFloat: FloatSyntax)
    requires AllWellFormed(rs, isFloat) && |PrintAll(rs)| <= MAX_INT
    requires Wire(incoming) == PrintAll(rs) + rest
    ensures var s := ReadManyFrom([], incoming, |rs|, isFloat);
            s.answer == Ok(rs) && s.rbuf + Wire(s.incoming) == rest
  {
    hide ReadManyFrom, ParseItems, PrintAll, AllWellFormed;
    assert [] + Wire(incoming) == Wire(incoming);
    PrintedAllParse(rs, rest, isFloat);
    ReadManyFollowsStream([], incoming, |rs|, isFloat);
    assert (PrintAll(rs) + rest)[|PrintAll(rs)|..] == rest;
  }

  // --- Requests ---------------------------------------------------------------------

  type Argv = seq<seq<Byte>>

  function Bulks(argv: Argv): seq<Reply> {
    seq(|argv|, i requires 0 <= i < |argv| => Bulk(argv[i]))
  }

  /** The RESP value that a command is on the wire. */
  function Command(argv: Argv): Reply {
    Array(Bulks(argv))
  }

  function Commands(cmds: seq<Argv>): seq<Reply> {
    seq(|cmds|, i requires 0 <= i < |cmds| => Command(cmds[i]))
  }

  lemma {:induction false} PrintAllAppend(rs: seq<Reply>, r: Reply)
    ensures PrintAll(rs + [r]) == PrintAll(rs) + Print(r)
  {
    hide Print;
    if rs == [] {
      assert [] + [r] == [r] && [r][1..] == [];
    } else {
      PrintAllAppend(rs[1..], r);
      assert (rs + [r])[1..] == rs[1..] + [r];
    }
  }

  /** encodeCommand: appends argv to out as a RESP array of bulk strings. */
  method EncodeCommand(out: seq<Byte>, argv: Argv) returns (wire: seq<Byte>)
    ensures wire == out + Print(Command(argv))
  {
    hide Print, PrintAll, PrintInt, Bulks;
    wire := out + [42];
    wire := wire + PrintInt(|argv|);
    wire := wire + CRLF;
    ghost var head := wire;
    CommandStart(head, argv);
    for i := 0 to |argv|
      invariant wire == head + PrintAll(Bulks(argv[..i]))
    {
      ghost var before := wire;
      var a := argv[i];
      wire := wire + [36];
      wire := wire + PrintInt(|a|);
      wire := wire + CRLF;
      wire := wire + a;
      wire := wire + CRLF;
      CommandStep(head, argv, i);
    }
    CommandEnd(out, argv);
  }

  lemma {:induction false} CommandStart(head: seq<Byte>, argv: Argv)
    ensures head == head + PrintAll(Bulks(argv[..0]))
  {
    assert Bulks(argv[..0]) == [];
  }

  lemma {:induction false} CommandStep(head: seq<Byte>, argv: Argv, i: nat)
    requires i < |argv|
    ensures var a := argv[i];
            head + PrintAll(Bulks(argv[..i])) + [36] + PrintInt(|a|) + CRLF + a + CRLF
            == head + PrintAll(Bulks(argv[..i + 1]))
  {
    hide PrintAll, PrintInt;
    var a := argv[i];
    assert Bulks(argv[..i + 1]) == Bulks(argv[..i]) + [Bulk(a)];
    PrintAllAppend(Bulks(argv[..i]), Bulk(a));
    assert Print(Bulk(a)) == [36] + PrintInt(|a|) + CRLF + a + CRLF;
  }

  lemma {:induction false} CommandEnd(out: seq<Byte>, argv: Argv)
    ensures out + [42] + PrintInt(|argv|) + CRLF + PrintAll(Bulks(argv[..|argv|])) == out + Print(Command(argv))
  {
    hide PrintAll, PrintInt;
    assert argv[..|argv|] == argv;
    assert Print(Command(argv)) == [42] + PrintInt(|argv|) + CRLF + PrintAll(Bulks(argv));
  }

  lemma {:induction false} BulksWellFormed(argv: Argv, isFloat: FloatSyntax)
    ensures AllWellFormed(Bulks(argv), isFloat)
  {
    if argv != [] {
      BulksWellFormed(argv[1..], isFloat);
      assert Bulks(argv)[1..] == Bulks(argv[1..]);
    }
  }

  lemma {:induction false} CommandsWellFormed(cmds: seq<Argv>, isFloat: FloatSyntax)
    ensures AllWellFormed(Commands(cmds), isFloat)
  {
    if cmds != [] {
      BulksWellFormed(cmds[0], isFloat);
      CommandsWellFormed(cmds[1..], isFloat);
      assert Commands(cmds)[1..] == Commands(cmds[1..]);
    }
  }

  /** A batch decodes to exactly the queued argument vectors, CRLF bytes in arguments included. */
  lemma {:induction false} BatchDecodes(cmds: seq<Argv>, rest: seq<Byte>, isFloat: FloatSyntax)
    requires |PrintAll(Commands(cmds))| <= MAX_INT
    ensures ParseItems(PrintAll(Commands(cmds)) + rest, |cmds|, isFloat)
         == Value(Commands(cmds), |PrintAll(Commands(cmds))|)
    ensures forall i, j :: 0 <= i < |cmds| && 0 <= j < |cmds[i]| ==> Commands(cmds)[i].items[j] == Bulk(cmds[i][j])
  {
    CommandsWellFormed(cmds, isFloat);
    PrintedAllParse(Commands(cmds), rest, isFloat);
  }

  /** PipelineBuf: commands encoded as they are queued. */
  class PipelineBuf {
    var buf: seq<Byte>
    var count: nat
    var poisoned: bool
    ghost var queued: seq<Argv>

    ghost predicate Valid()
      reads this
    {
      buf == PrintAll(Commands(queued)) && count == |queued|
    }

    constructor ()
      ensures Valid() && queued == [] && !poisoned
    {
      buf, count, poisoned, queued := [], 0, false, [];
    }

    /** Cmd: an empty command is dropped and poisons the batch. */
    method Cmd(parts: Argv)
      requires Valid()
      modifies this
      ensures Valid()
      ensures queued == if parts == [] then old(queued) else old(queued) + [parts]
      ensures poisoned == (old(poisoned) || parts == [])
    {
      if parts == [] {
        poisoned := true;
        return;
      }
      PrintAllAppend(Commands(queued), Command(parts));
      assert Commands(queued + [parts]) == Commands(queued) + [Command(parts)];
      buf := EncodeCommand(buf, parts);
      count := count + 1;
      queued := queued + [parts];
    }
  }

  /** respConn: the read buffer, the write scratch, and the socket's two directions. */
  class Conn {
    var open: bool
    var rbuf: seq<Byte>
    var wbuf: seq<Byte>
    var incoming: seq<Read>
    var sent: seq<Byte>
    var room: Option<nat>
    const isFloat: FloatSyntax

    /** room is how many bytes the socket still takes before it fails, None if it never does. */
    constructor (incoming: seq<Read>, room: Option<nat>, isFloat: FloatSyntax)
      ensures open && rbuf == [] && sent == [] && this.incoming == incoming && this.room == room
      ensures this.isFloat == isFloat
    {
      open, rbuf, wbuf, sent := true, [], [], [];
      this.incoming, this.room, this.isFloat := incoming, room, isFloat;
    }

    /** A write of these bytes goes through whole. */
    predicate Takes(wire: seq<Byte>)
      reads this
    {
      room.Some? ==> |wire| <= room.value
    }

    /** conn.Write: all the bytes, or those that go out before the error. */
    method Transmit(wire: seq<Byte>) returns (ok: bool)
      modifies this`sent, this`room
      ensures ok == old(Takes(wire))
      ensures sent == old(sent) + if ok then wire else wire[..old(room).value]
    {
      ok := Takes(wire);
      if ok {
        sent := sent + wire;
        room := if room.Some? then Some(room.value - |wire|) else None;
      } else {
        sent := sent + wire[..room.value];
        room := Some(0);
      }
    }

    /** The bytes received and not yet consumed. */
    ghost function Unread(): seq<Byte>
      reads this
    {
      rbuf + Wire(incoming)
    }

    /** readOne */
    method ReadOne() returns (a: Answer<Reply>)
      requires open
      modifies this`rbuf, this`incoming, this`open
      ensures Step(a, rbuf, incoming) == ReadOneFrom(old(rbuf), old(incoming), isFloat)
      ensures open <==> a.Ok? || a == Err(Protocol) || a == Err(Panicked)
      ensures a.Ok? <==> ParseReply(old(Unread()), isFloat).Value?
      ensures a.Ok? ==> var p := ParseReply(old(Unread()), isFloat);
                        a.value == p.value && Unread() == old(Unread())[p.used..]
      ensures !open ==> a == Err(if EndsInEof(old(incoming)) then Closed else Io) && rbuf == old(Unread())
    {
      hide ParseReply;
      ReadOneFollowsStream(rbuf, incoming, isFloat);
      while true
        invariant open
        invariant ReadOneFrom(rbuf, incoming, isFloat) == ReadOneFrom(old(rbuf), old(incoming), isFloat)
        decreases |incoming|
      {
        var p := Parse(rbuf, isFloat);
        match p {
          case Malformed => return Err(Protocol);
          case Panic => return Err(Panicked);
          case Value(r, used) =>
            rbuf := rbuf[used..];
            return Ok(r);
          case NeedMore =>
        }
        if incoming == [] {
          open := false;
          return Err(Closed);
        }
        var got := incoming[0];
        incoming := incoming[1..];
        if got.bytes == [] && got.error.Some? {
          open := false;
          return Err(FaultOf(got.error.value));
        }
        rbuf := rbuf + got.bytes;
      }
    }

    /** roundtrip: one write, then n replies; a failure drops the replies already read. */
    method Roundtrip(wire: seq<Byte>, n: nat) returns (a: Answer<seq<Reply>>)
      requires open
      modifies this`rbuf, this`incoming, this`open, this`sent, this`room
      ensures !old(Takes(wire)) ==>
                a == Err(Io) && !open && sent == old(sent) + wire[..old(room).value] && Unread() == old(Unread())
      ensures old(Takes(wire)) ==> sent == old(sent) + wire
      ensures old(Takes(wire)) ==> Run(a, rbuf, incoming) == ReadManyFrom(old(rbuf), old(incoming), n, isFloat)
      ensures old(Takes(wire)) ==> (a.Ok? <==> ParseItems(old(Unread()), n, isFloat).Value?)
      ensures a.Ok? ==> var p := ParseItems(old(Unread()), n, isFloat);
                        open && p.Value? && a.value == p.value && Unread() == old(Unread())[p.used..]
    {
      hide ParseReply, ParseItems, ReadOneFrom, ReadManyFrom;
      var written := Transmit(wire);
      if !written {
        open := false;
        return Err(Io);
      }
      ReadManyFollowsStream(rbuf, incoming, n, isFloat);
      var out: seq<Reply> := [];
      ghost var whole := ReadManyFrom(rbuf, incoming, n, isFloat);
      PrependNothing(whole);
      while |out| < n
        invariant |out| <= n && open && sent == old(sent) + wire
        invariant whole == Prepend(out, ReadManyFrom(rbuf, incoming, n - |out|, isFloat))
      {
        ReadManyStep(out, rbuf, incoming, n - |out|, isFloat);
        var r := ReadOne();
        if r.Err? {
          return Err(r.fault);
        }
        out := out + [r.value];
      }
      ReadManyDone(out, rbuf, incoming, isFloat);
      return Ok(out);
    }

    /** write: one command, no reply read. */
    method Write(argv: Argv) returns (a: Answer<()>)
      modifies this`wbuf, this`sent, this`open, this`room
      ensures a == (if !old(open) then Err(Closed) else if !old(Takes(Print(Command(argv)))) then Err(Io) else Ok(()))
      ensures a.Ok? ==> sent == old(sent) + Print(Command(argv))
      ensures a == Err(Io) ==> sent == old(sent) + Print(Command(argv))[..old(room).value]
      ensures !old(open) ==> sent == old(sent)
      ensures open <==> a.Ok?
    {
      if !open {
        return Err(Closed);
      }
      wbuf := EncodeCommand([], argv);
      assert [] + Print(Command(argv)) == Print(Command(argv));
      var written := Transmit(wbuf);
      if !written {
        open := false;
        return Err(Io);
      }
      return Ok(());
    }

    /** readReply */
    method ReadReply() returns (a: Answer<Reply>)
      modifies this`rbuf, this`incoming, this`open
      ensures !old(open) ==> a == Err(Closed) && Unread() == old(Unread()) && !open
      ensures old(open) ==> (a.Ok? <==> ParseReply(old(Unread()), isFloat).Value?)
      ensures a.Ok? ==> var p := ParseReply(old(Unread()), isFloat);
                        open && p.Value? && a.value == p.value && Unread() == old(Unread())[p.used..]
    {
      if !open {
        return Err(Closed);
      }
      a := ReadOne();
    }

    /** request */
    method Request(argv: Argv) returns (a: Answer<Reply>)
      modifies this
      ensures !old(open) ==> a == Err(Closed) && sent == old(sent) && Unread() == old(Unread())
      ensures old(open) && old(Takes(Print(Command(argv)))) ==> sent == old(sent) + Print(Command(argv))
      ensures old(open) && !old(Takes(Print(Command(argv)))) ==>
                a == Err(Io) && !open && sent == old(sent) + Print(Command(argv))[..old(room).value]
      ensures old(open) && old(Takes(Print(Command(argv)))) ==> (a.Ok? <==> ParseReply(old(Unread()), isFloat).Value?)
      ensures a.Ok? ==> var p := ParseReply(old(Unread()), isFloat);
                        p.Value? && a.value == p.value && Unread() == old(Unread())[p.used..]
    {
      hide ParseReply, ReadManyFrom;
      if !open {
        return Err(Closed);
      }
      wbuf := EncodeCommand([], argv);
      assert [] + Print(Command(argv)) == Print(Command(argv));
      ghost var unread := Unread();
      SingleItem(unread, isFloat);
      var replies := Roundtrip(wbuf, 1);
      if replies.Err? {
        return Err(replies.fault);
      }
      return Ok(replies.value[0]);
    }
  }

  function Prepend(out: seq<Reply>, run: Run): Run {
    if run.answer.Ok? then run.(answer := Ok(out + run.answer.value)) else run
  }

  lemma {:induction false} PrependNothing(run: Run)
    ensures Prepend([], run) == run
  {
    if run.answer.Ok? {
      assert [] + run.answer.value == run.answer.value;
    }
  }

  lemma {:induction false} ReadManyDone(out: seq<Reply>, rbuf: seq<Byte>, incoming: seq<Read>, isFloat: FloatSyntax)
    ensures Prepend(out, ReadManyFrom(rbuf, incoming, 0, isFloat)) == Run(Ok(out), rbuf, incoming)
  {
    assert out + [] == out;
  }

  lemma {:induction false} ReadManyStep(out: seq<Reply>, rbuf: seq<Byte>, incoming: seq<Read>, n: nat, isFloat: FloatSyntax)
    requires n > 0
    ensures var s := ReadOneFrom(rbuf, incoming, isFloat);
            Prepend(out, ReadManyFrom(rbuf, incoming, n, isFloat))
            == if s.answer.Err? then Run(Err(s.answer.fault), s.rbuf, s.incoming)
               else Prepend(out + [s.answer.value], ReadManyFrom(s.rbuf, s.incoming, n - 1, isFloat))
  {
    hide ReadOneFrom;
    var s := ReadOneFrom(rbuf, incoming, isFloat);
    if s.answer.Ok? {
      var rest := ReadManyFrom(s.rbuf, s.incoming, n - 1, isFloat);
      if rest.answer.Ok? {
        assert out + ([s.answer.value] + rest.answer.value) == out + [s.answer.value] + rest.answer.value;
      }
    }
  }

  lemma {:induction false} SingleItem(buf: seq<Byte>, isFloat: FloatSyntax)
    ensures var p := ParseReply(buf, isFloat);
            ParseItems(buf, 1, isFloat) == if p.Value? then Value([p.value], p.used) else p.PropagateFailure()
  {
    hide ParseReply;
    var p := ParseReply(buf, isFloat);
    if p.Value? {
      assert ParseItems(buf[p.used..], 0, isFloat) == Value([], 0);
      assert [p.value] + [] == [p.value];
    }
  }

  /** Client.Pipeline on a remote client: the batch is one write and the replies come back in queue order. */
  method SendPipeline(conn: Conn, p: PipelineBuf) returns (a: Answer<seq<Reply>>)
    requires p.Valid()
    modifies conn
    ensures p.poisoned ==> a == Err(InvalidInput) && conn.sent == old(conn.sent) && conn.Unread() == old(conn.Unread())
    ensures !p.poisoned && p.queued == [] ==>
              a == Ok([]) && conn.sent == old(conn.sent) && conn.Unread() == old(conn.Unread())
    ensures !p.poisoned && p.queued != [] && old(conn.open) && old(conn.Takes(p.buf)) ==>
              && conn.sent == old(conn.sent) + PrintAll(Commands(p.queued))
              && (a.Ok? <==> ParseItems(old(conn.Unread()), |p.queued|, conn.isFloat).Value?)
    ensures a.Ok? && p.queued != [] ==>
              var r := ParseItems(old(conn.Unread()), |p.queued|, conn.isFloat);
              r.Value? && a.value == r.value && conn.Unread() == old(conn.Unread())[r.used..]
  {
    if p.poisoned {
      return Err(InvalidInput);
    }
    if p.count == 0 {
      return Ok([]);
    }
    if !conn.open {
      return Err(Closed);
    }
    a := conn.Roundtrip(p.buf, p.count);
  }
}
