/** The arena-batched bulk write of bindings/go/kevy.go: SetMany and setManyChunked. */
module SetMany {
  import opened Bytes

  const ARENA_BYTES: nat := 0x10_0000

  datatype Pair = Pair(key: seq<Byte>, val: seq<Byte>)

  /** Whether the engine takes one more SET after those it has applied. */
  type Engine = (seq<Pair>, Pair) -> bool

  datatype Outcome = Outcome(log: seq<Pair>, ok: bool)

  /** One SET a pair, in order, up to the first that the engine refuses. */
  function OneByOne(log: seq<Pair>, pairs: seq<Pair>, accepts: Engine): Outcome
    decreases |pairs|
  {
    if pairs == [] then Outcome(log, true)
    else if !accepts(log, pairs[0]) then Outcome(log, false)
    else OneByOne(log + [pairs[0]], pairs[1..], accepts)
  }

  lemma {:induction false} OneByOneSplits(log: seq<Pair>, a: seq<Pair>, b: seq<Pair>, accepts: Engine)
    ensures var first := OneByOne(log, a, accepts);
            OneByOne(log, a + b, accepts) == if first.ok then OneByOne(first.log, b, accepts) else first
    decreases |a|
  {
    if a == [] {
      assert a + b == b;
    } else {
      assert (a + b)[1..] == a[1..] + b;
      if accepts(log, a[0]) {
        OneByOneSplits(log + [a[0]], a[1..], b, accepts);
      }
    }
  }

  /** What was written is the input in order: all of it, or a prefix that stops at a refused pair. */
  lemma {:induction false} WritesArePrefix(log: seq<Pair>, pairs: seq<Pair>, accepts: Engine)
    ensures var r := OneByOne(log, pairs, accepts);
            && |log| <= |r.log| <= |log| + |pairs| && r.log == log + pairs[..|r.log| - |log|]
            && (r.ok <==> |r.log| == |log| + |pairs|)
            && (!r.ok ==> !accepts(r.log, pairs[|r.log| - |log|]))
    decreases |pairs|
  {
    if pairs != [] && accepts(log, pairs[0]) {
      WritesArePrefix(log + [pairs[0]], pairs[1..], accepts);
      var r := OneByOne(log, pairs, accepts);
      var k := |r.log| - |log|;
      assert log + [pairs[0]] + pairs[1..][..k - 1] == log + pairs[..k];
    }
  }

  /** Each pair written was accepted by the engine as it stood then. */
  lemma {:induction false} WritesWereAccepted(log: seq<Pair>, pairs: seq<Pair>, accepts: Engine, j: nat)
    requires j < |OneByOne(log, pairs, accepts).log| - |log|
    ensures j < |pairs| && accepts(OneByOne(log, pairs, accepts).log[..|log| + j], pairs[j])
    decreases |pairs|
  {
    WritesArePrefix(log, pairs, accepts);
    if j == 0 {
      assert OneByOne(log, pairs, accepts).log[..|log|] == log;
    } else {
      WritesWereAccepted(log + [pairs[0]], pairs[1..], accepts, j - 1);
    }
  }

  /** The engine behind the handle: every SET it has applied. */
  class Db {
    var open: bool
    var log: seq<Pair>
    const accepts: Engine

    constructor (accepts: Engine)
      ensures open && log == [] && this.accepts == accepts
    {
      open, log, this.accepts := true, [], accepts;
    }

    /** One SET of the engine. */
    method Store(p: Pair) returns (ok: bool)
      modifies this`log
      ensures Outcome(log, ok) == OneByOne(old(log), [p], accepts)
    {
      ok := accepts(log, p);
      if ok {
        log := log + [p];
      }
    }

    /** SetScalar: a closed handle is refused before the engine is asked. */
    method SetScalar(p: Pair) returns (ok: bool)
      modifies this`log
      ensures !open ==> !ok && log == old(log)
      ensures open ==> Outcome(log, ok) == OneByOne(old(log), [p], accepts)
      ensures ok ==> log == old(log) + [p]
    {
      if !open {
        return false;
      }
      ok := Store(p);
    }
  }

  /** One entry of the pointer and length arrays; a pointer is an offset into the arena. */
  datatype Entry = Entry(kp: nat, kl: nat, vp: nat, vl: nat)

  /** An entry's two slices lie inside the used part of the arena and hold the pair's bytes. */
  ghost predicate Holds(mem: seq<Byte>, off: nat, e: Entry, p: Pair) {
    && off <= |mem| && e.kp + e.kl == e.vp && e.vp + e.vl <= off
    && mem[e.kp..e.kp + e.kl] == p.key && mem[e.vp..e.vp + e.vl] == p.val
  }

  /** Every queued pair is held by its entry, and the slices follow one another without overlap. */
  ghost predicate Laid(mem: seq<Byte>, off: nat, entries: seq<Entry>, queued: seq<Pair>) {
    && off <= |mem| && |entries| == |queued| && (queued == [] ==> off == 0)
    && (forall j :: 0 <= j < |queued| ==> Holds(mem, off, entries[j], queued[j]))
    && (forall j, k :: 0 <= j < k < |queued| ==> entries[j].vp + entries[j].vl <= entries[k].kp)
  }

  lemma {:induction false} HoldsAfter(mem: seq<Byte>, now: seq<Byte>, off: nat, top: nat, e: Entry, p: Pair)
    requires Holds(mem, off, e, p) && off <= top <= |now| && now[..off] == mem[..off]
    ensures Holds(now, top, e, p)
  {
    SliceKept(mem, now, off, e.kp, e.vp);
    SliceKept(mem, now, off, e.vp, e.vp + e.vl);
  }

  lemma {:induction false} SliceKept(mem: seq<Byte>, now: seq<Byte>, off: nat, lo: nat, hi: nat)
    requires lo <= hi <= off <= |mem| && off <= |now| && now[..off] == mem[..off]
    ensures now[lo..hi] == mem[lo..hi]
  {
    forall i | lo <= i < hi
      ensures now[i] == mem[i]
    {
      assert now[i] == now[..off][i] && mem[i] == mem[..off][i];
    }
  }

  /** Writing a pair at the top of the used part and adding its entry keeps the layout. */
  lemma {:induction false} LaidAfterPush(mem: seq<Byte>, now: seq<Byte>, off: nat, entries: seq<Entry>, queued: seq<Pair>, p: Pair)
    requires Laid(mem, off, entries, queued) && off + |p.key| + |p.val| <= |now| && now[..off] == mem[..off]
    requires now[off..off + |p.key|] == p.key
    requires now[off + |p.key|..off + |p.key| + |p.val|] == p.val
    requires queued != [] || off == 0
    ensures Laid(now, off + |p.key| + |p.val|, entries + [Entry(off, |p.key|, off + |p.key|, |p.val|)], queued + [p])
  {
    var top := off + |p.key| + |p.val|;
    var e := Entry(off, |p.key|, off + |p.key|, |p.val|);
    forall j | 0 <= j < |queued| + 1
      ensures Holds(now, top, (entries + [e])[j], (queued + [p])[j])
    {
      if j < |queued| {
        HoldsAfter(mem, now, off, top, entries[j], queued[j]);
      }
    }
    assert forall j :: 0 <= j < |queued| ==> Holds(mem, off, entries[j], queued[j]);
  }

  /** The C arena and the four pointer and length arrays. */
  class Arena {
    const buf: array<Byte>
    const kpa: array<nat>
    const kla: array<nat>
    const vpa: array<nat>
    const vla: array<nat>
    var off: nat
    var cnt: nat
    ghost var queued: seq<Pair>

    ghost function Entries(): seq<Entry>
      requires cnt <= kpa.Length && kpa.Length == kla.Length == vpa.Length == vla.Length
      reads this, kpa, kla, vpa, vla
    {
      seq(cnt, i requires 0 <= i < cnt && cnt <= kpa.Length && kpa.Length == kla.Length == vpa.Length == vla.Length
            reads this, kpa, kla, vpa, vla => Entry(kpa[i], kla[i], vpa[i], vla[i]))
    }

    ghost predicate Valid()
      reads this, buf, kpa, kla, vpa, vla
    {
      && buf.Length == ARENA_BYTES && kpa.Length == kla.Length == vpa.Length == vla.Length
      && kpa != kla && kpa != vpa && kpa != vla && kla != vpa && kla != vla && vpa != vla
      && cnt == |queued| <= kpa.Length
      && Laid(buf[..], off, Entries(), queued)
    }

    constructor (n: nat)
      ensures Valid() && queued == [] && kpa.Length == n && fresh(buf) && fresh(kpa) && fresh(kla) && fresh(vpa) && fresh(vla)
    {
      buf := new Byte[ARENA_BYTES];
      kpa, kla, vpa, vla := new nat[n], new nat[n], new nat[n], new nat[n];
      off, cnt, queued := 0, 0, [];
    }

    /** copy(buf[off:], bytes): the bytes that fit. */
    method Copy(at: nat, bytes: seq<Byte>) returns (n: nat)
      requires at <= buf.Length
      modifies buf
      ensures n == if |bytes| <= buf.Length - at then |bytes| else buf.Length - at
      ensures buf[..at] == old(buf[..at]) && buf[at..at + n] == bytes[..n]
    {
      n := if |bytes| <= buf.Length - at then |bytes| else buf.Length - at;
      for i := 0 to n
        invariant buf[..at] == old(buf[..at])
        invariant forall j :: 0 <= j < i ==> buf[at + j] == bytes[j]
      {
        buf[at + i] := bytes[i];
      }
    }

    /** The loop body that queues a pair. */
    method Push(p: Pair)
      requires Valid() && cnt < kpa.Length && off + |p.key| + |p.val| <= ARENA_BYTES
      modifies this, buf, kpa, kla, vpa, vla
      ensures Valid() && queued == old(queued) + [p]
    {
      hide Laid;
      ghost var mem, top, entries := buf[..], off, Entries();
      WithinBuf(mem, off, entries, queued);
      kpa[cnt] := off;
      kla[cnt] := |p.key|;
      var n := Copy(off, p.key);
      off := off + n;
      ghost var half := buf[..];
      vpa[cnt] := off;
      vla[cnt] := |p.val|;
      n := Copy(off, p.val);
      off := off + n;
      TwoCopies(mem, half, buf[..], top, p);
      LaidAfterPush(mem, buf[..], top, entries, queued, p);
      ExtendEntries(p, top, entries);
    }

    /** The pair is counted. */
    ghost predicate Written(p: Pair, top: nat, entries: seq<Entry>)
      reads this, buf, kpa, kla, vpa, vla
    {
      && buf.Length == ARENA_BYTES && kpa.Length == kla.Length == vpa.Length == vla.Length
      && kpa != kla && kpa != vpa && kpa != vla && kla != vpa && kla != vla && vpa != vla
      && cnt == |queued| < kpa.Length && entries == Entries()
      && Entry(kpa[cnt], kla[cnt], vpa[cnt], vla[cnt]) == Entry(top, |p.key|, top + |p.key|, |p.val|)
      && Laid(buf[..], off, entries + [Entry(top, |p.key|, top + |p.key|, |p.val|)], queued + [p])
    }

    method ExtendEntries(p: Pair, ghost top: nat, ghost entries: seq<Entry>)
      requires Written(p, top, entries)
      modifies this`cnt, this`queued
      ensures Valid() && queued == old(queued) + [p]
    {
      hide Laid;
      cnt := cnt + 1;
      queued := queued + [p];
      assert Entries() == entries + [Entry(top, |p.key|, top + |p.key|, |p.val|)];
    }

    /** Two copies, one after the other, leave what was below them. */
    static lemma {:induction false} TwoCopies(mem: seq<Byte>, half: seq<Byte>, now: seq<Byte>, top: nat, p: Pair)
      requires |mem| == |half| == |now| && top + |p.key| + |p.val| <= |now|
      requires half[..top] == mem[..top] && half[top..top + |p.key|] == p.key
      requires now[..top + |p.key|] == half[..top + |p.key|]
      requires now[top + |p.key|..top + |p.key| + |p.val|] == p.val
      ensures now[..top] == mem[..top] && now[top..top + |p.key|] == p.key
    {
      var cut := top + |p.key|;
      assert now[..top] == now[..cut][..top] == half[..cut][..top] == half[..top];
      assert now[top..cut] == now[..cut][top..] == half[..cut][top..] == half[top..cut];
    }

    static lemma {:induction false} WithinBuf(mem: seq<Byte>, off: nat, entries: seq<Entry>, queued: seq<Pair>)
      requires Laid(mem, off, entries, queued)
      ensures off <= |mem| && |entries| == |queued| && (queued == [] ==> off == 0)
    {
    }

    /** flush: one kevy_set_many over the queued slices. */
    method Flush(db: Db) returns (ok: bool)
      requires Valid()
      modifies this`off, this`cnt, this`queued, db`log
      ensures Outcome(db.log, ok) == OneByOne(old(db.log), old(queued), db.accepts)
      ensures ok ==> Valid() && queued == []
    {
      if cnt == 0 {
        return true;
      }
      ok := ReadSlices(db);
      if ok {
        off, cnt, queued := 0, 0, [];
      }
    }

    /** One pair, read through its pointers and lengths. */
    method ReadSlice(i: nat) returns (p: Pair)
      requires Valid() && i < cnt
      ensures p == queued[i]
    {
      ghost var e, mem := Entries()[i], buf[..];
      assert Holds(mem, off, e, queued[i]);
      hide Laid;
      var k := buf[kpa[i]..kpa[i] + kla[i]];
      var v := buf[vpa[i]..vpa[i] + vla[i]];
      assert k == mem[e.kp..e.kp + e.kl] && v == mem[e.vp..e.vp + e.vl];
      p := Pair(k, v);
    }

    /** kevy_set_many: reads each key and value through its pointer and length, and sets it. */
    method ReadSlices(db: Db) returns (ok: bool)
      requires Valid()
      modifies db`log
      ensures Outcome(db.log, ok) == OneByOne(old(db.log), queued, db.accepts)
    {
      ghost var whole := OneByOne(db.log, queued, db.accepts);
      hide OneByOne, Ahead, Laid;
      AheadAtEnds(whole, db.log, [], queued, db.accepts);
      for i := 0 to cnt
        invariant Ahead(whole, db.log, [], queued[i..], db.accepts)
      {
        var p := ReadSlice(i);
        AheadAfterSet(whole, db.log, queued, i, db.accepts);
        ok := db.Store(p);
        if !ok {
          return false;
        }
      }
      AheadAtEnds(whole, db.log, [], queued, db.accepts);
      NothingLeft(db.log, db.accepts);
      return true;
    }
  }

  lemma {:induction false} NothingLeft(log: seq<Pair>, accepts: Engine)
    ensures OneByOne(log, [], accepts) == Outcome(log, true)
  {
  }

  function Zip(keys: seq<seq<Byte>>, vals: seq<seq<Byte>>): (pairs: seq<Pair>)
    requires |keys| == |vals|
    ensures |pairs| == |keys|
  {
    seq(|keys|, i requires 0 <= i < |keys| => Pair(keys[i], vals[i]))
  }

  /** The SETs still to come, seen from the middle of the loop. */
  ghost predicate Ahead(whole: Outcome, log: seq<Pair>, queued: seq<Pair>, rest: seq<Pair>, accepts: Engine) {
    whole == OneByOne(log, queued + rest, accepts)
  }

  lemma {:induction false} AheadAfterFlush(whole: Outcome, log: seq<Pair>, queued: seq<Pair>, rest: seq<Pair>, accepts: Engine)
    requires Ahead(whole, log, queued, rest, accepts)
    ensures var done := OneByOne(log, queued, accepts);
            if done.ok then Ahead(whole, done.log, [], rest, accepts) else whole == done
  {
    OneByOneSplits(log, queued, rest, accepts);
    assert [] + rest == rest;
  }

  lemma {:induction false} AheadAfterSet(whole: Outcome, log: seq<Pair>, pairs: seq<Pair>, i: nat, accepts: Engine)
    requires i < |pairs| && Ahead(whole, log, [], pairs[i..], accepts)
    ensures var done := OneByOne(log, [pairs[i]], accepts);
            if done.ok then Ahead(whole, done.log, [], pairs[i + 1..], accepts) else whole == done
  {
    assert [] + pairs[i..] == [pairs[i]] + pairs[i + 1..];
    OneByOneSplits(log, [pairs[i]], pairs[i + 1..], accepts);
    assert [] + pairs[i + 1..] == pairs[i + 1..];
  }

  lemma {:induction false} AheadAfterPush(whole: Outcome, log: seq<Pair>, queued: seq<Pair>, pairs: seq<Pair>, i: nat, accepts: Engine)
    requires i < |pairs| && Ahead(whole, log, queued, pairs[i..], accepts)
    ensures Ahead(whole, log, queued + [pairs[i]], pairs[i + 1..], accepts)
  {
    assert queued + pairs[i..] == queued + [pairs[i]] + pairs[i + 1..];
  }

  lemma {:induction false} AheadAtEnds(whole: Outcome, log: seq<Pair>, queued: seq<Pair>, pairs: seq<Pair>, accepts: Engine)
    ensures whole == OneByOne(log, pairs, accepts) ==> Ahead(whole, log, [], pairs[0..], accepts)
    ensures Ahead(whole, log, queued, pairs[|pairs|..], accepts) ==> whole == OneByOne(log, queued, accepts)
  {
    assert [] + pairs[0..] == pairs && queued + pairs[|pairs|..] == queued;
  }

  /**
   now is was and then key j with value j for every j below some n: all of them when ok, and
   otherwise up to the first pair that the engine refuses.
   */
  ghost predicate Wrote(was: seq<Pair>, now: seq<Pair>, ok: bool, keys: seq<seq<Byte>>, vals: seq<seq<Byte>>, accepts: Engine) {
    var n := |now| - |was|;
    && 0 <= n <= |keys| == |vals| && now[..|was|] == was
    && (forall j :: 0 <= j < n ==> now[|was| + j].key == keys[j] && now[|was| + j].val == vals[j])
    && (forall j :: 0 <= j < n ==> accepts(now[..|was| + j], Pair(keys[j], vals[j])))
    && (ok <==> n == |keys|)
    && (!ok ==> !accepts(now, Pair(keys[n], vals[n])))
  }

  /** Setting zipped pairs one by one writes each key with its own value. */
  lemma {:induction false} ZippedWrites(log: seq<Pair>, keys: seq<seq<Byte>>, vals: seq<seq<Byte>>, accepts: Engine)
    requires |keys| == |vals|
    ensures var r := OneByOne(log, Zip(keys, vals), accepts); Wrote(log, r.log, r.ok, keys, vals, accepts)
  {
    hide OneByOne;
    var pairs := Zip(keys, vals);
    var r := OneByOne(log, pairs, accepts);
    WritesArePrefix(log, pairs, accepts);
    forall j | 0 <= j < |r.log| - |log|
      ensures accepts(r.log[..|log| + j], Pair(keys[j], vals[j]))
    {
      WritesWereAccepted(log, pairs, accepts, j);
    }
  }

  /** setManyChunked: chunks of the arena, with pairs larger than the arena set on their own. */
  method SetManyChunked(db: Db, keys: seq<seq<Byte>>, vals: seq<seq<Byte>>) returns (ok: bool)
    requires db.open && |keys| == |vals|
    modifies db`log
    ensures Outcome(db.log, ok) == OneByOne(old(db.log), Zip(keys, vals), db.accepts)
    ensures Wrote(old(db.log), db.log, ok, keys, vals, db.accepts)
  {
    hide OneByOne, Ahead, Laid, Wrote;
    ZippedWrites(db.log, keys, vals, db.accepts);
    var n := |keys|;
    ghost var pairs := Zip(keys, vals);
    ghost var whole := OneByOne(db.log, pairs, db.accepts);
    AheadAtEnds(whole, db.log, [], pairs, db.accepts);
    var arena := new Arena(n);
    var i := 0;
    while i < n
      invariant 0 <= i <= n && arena.Valid() && arena.kpa.Length == n && arena.cnt <= i
      invariant fresh(arena) && fresh(arena.buf) && fresh(arena.kpa) && fresh(arena.kla) && fresh(arena.vpa) && fresh(arena.vla)
      invariant Ahead(whole, db.log, arena.queued, pairs[i..], db.accepts)
      decreases n - i, arena.cnt
    {
      var need := |keys[i]| + |vals[i]|;
      if need > ARENA_BYTES {
        AheadAfterFlush(whole, db.log, arena.queued, pairs[i..], db.accepts);
        var flushed := arena.Flush(db);
        if !flushed {
          return false;
        }
        AheadAfterSet(whole, db.log, pairs, i, db.accepts);
        var stored := db.SetScalar(Pair(keys[i], vals[i]));
        if !stored {
          return false;
        }
        i := i + 1;
        continue;
      }
      if arena.cnt > 0 && arena.off + need > ARENA_BYTES {
        AheadAfterFlush(whole, db.log, arena.queued, pairs[i..], db.accepts);
        var flushed := arena.Flush(db);
        if !flushed {
          return false;
        }
        continue;
      }
      AheadAfterPush(whole, db.log, arena.queued, pairs, i, db.accepts);
      Arena.WithinBuf(arena.buf[..], arena.off, arena.Entries(), arena.queued);
      arena.Push(Pair(keys[i], vals[i]));
      i := i + 1;
    }
    AheadAtEnds(whole, db.log, arena.queued, pairs, db.accepts);
    ok := arena.Flush(db);
  }

  datatype Error = ClosedHandle | LengthMismatch | EngineRefused

  /** SetMany: a closed handle or a length mismatch writes nothing; otherwise it is one SET a pair, in order. */
  method SetManyPairs(db: Db, keys: seq<seq<Byte>>, vals: seq<seq<Byte>>) returns (e: Option<Error>)
    modifies db`log
    ensures !db.open ==> e == Some(ClosedHandle) && db.log == old(db.log)
    ensures db.open && |keys| != |vals| ==> e == Some(LengthMismatch) && db.log == old(db.log)
    ensures db.open && |keys| == |vals| ==>
              && Outcome(db.log, e.None?) == OneByOne(old(db.log), Zip(keys, vals), db.accepts)
              && Wrote(old(db.log), db.log, e.None?, keys, vals, db.accepts)
              && (e.Some? ==> e.value == EngineRefused)
  {
    if !db.open {
      return Some(ClosedHandle);
    }
    if |keys| != |vals| {
      return Some(LengthMismatch);
    }
    if |keys| == 0 {
      return None;
    }
    var ok := SetManyChunked(db, keys, vals);
    return if ok then None else Some(EngineRefused);
  }
}
