/** The cluster key hash: the table-driven CRC-16 of bindings/go/crc16.go against the bit-serial one of bench/perfgate_angles.py. */
module Crc {
  const POLY: bv16 := 0x1021

  /** One shift of the polynomial division. */
  function Shift(crc: bv16): bv16 {
    if crc & 0x8000 != 0 then (crc << 1) ^ POLY else crc << 1
  }

  function Shifts(crc: bv16, n: nat): bv16 {
    if n == 0 then crc else Shift(Shifts(crc, n - 1))
  }

  /** The byte b in the high half of a word. */
  function High(b: bv8): bv16 {
    (b as bv16) << 8
  }

  function Xor(a: bv16, b: bv16): bv16 {
    a ^ b
  }

  /** CRC-16/XMODEM, one bit at a time: the reference. */
  function Crc16(data: seq<bv8>): bv16 {
    if data == [] then 0
    else Shifts(Xor(Crc16(data[..|data| - 1]), High(data[|data| - 1])), 8)
  }

  // --- Linearity -----------------------------------------------------------------

  lemma {:induction false} TopBit(x: bv16, y: bv16)
    ensures x & 0x8000 == 0 || x & 0x8000 == 0x8000
    ensures (x ^ y) & 0x8000 == (x & 0x8000) ^ (y & 0x8000)
  {
  }

  lemma {:induction false} ShiftXor(x: bv16, y: bv16)
    ensures (x ^ y) << 1 == (x << 1) ^ (y << 1)
  {
  }

  function Feedback(top: bv16): bv16 {
    if top != 0 then POLY else 0
  }

  lemma {:induction false} ShiftSplits(x: bv16)
    ensures Shift(x) == (x << 1) ^ Feedback(x & 0x8000)
  {
    var top := x & 0x8000;
    if top == 0 {
      XorZero(x << 1);
      assert Shift(x) == x << 1;
    } else {
      assert Shift(x) == (x << 1) ^ POLY;
    }
  }

  lemma {:induction false} XorZero(a: bv16)
    ensures a ^ 0 == a
  {
  }

  lemma {:induction false} FeedbackIsLinear(s: bv16, t: bv16)
    requires (s == 0 || s == 0x8000) && (t == 0 || t == 0x8000)
    ensures Feedback(s ^ t) == Feedback(s) ^ Feedback(t)
  {
    if s == 0 {
      assert 0 ^ t == t && 0 ^ Feedback(t) == Feedback(t);
    } else if t == 0 {
      assert s ^ 0 == s && Feedback(s) ^ 0 == Feedback(s);
    } else {
      assert (0x8000 as bv16) ^ 0x8000 == 0 && POLY ^ POLY == 0;
    }
  }

  lemma {:induction false} XorSwaps(a: bv16, b: bv16, p: bv16, q: bv16)
    ensures (a ^ p) ^ (b ^ q) == (a ^ b) ^ (p ^ q)
  {
  }

  lemma {:induction false} ShiftIsLinear(x: bv16, y: bv16)
    ensures Shift(Xor(x, y)) == Xor(Shift(x), Shift(y))
  {
    hide Shift, Feedback;
    var s, t := x & 0x8000, y & 0x8000;
    TopBit(x, y);
    TopBit(y, x);
    calc {
      Shift(x ^ y);
      { ShiftSplits(x ^ y); ShiftXor(x, y); }
      ((x << 1) ^ (y << 1)) ^ Feedback(s ^ t);
      { FeedbackIsLinear(s, t); }
      ((x << 1) ^ (y << 1)) ^ (Feedback(s) ^ Feedback(t));
      { XorSwaps(x << 1, y << 1, Feedback(s), Feedback(t)); }
      ((x << 1) ^ Feedback(s)) ^ ((y << 1) ^ Feedback(t));
      { ShiftSplits(x); ShiftSplits(y); }
      Shift(x) ^ Shift(y);
    }
  }

  lemma {:induction false} ShiftsAreLinear(x: bv16, y: bv16, n: nat)
    ensures Shifts(Xor(x, y), n) == Xor(Shifts(x, n), Shifts(y, n))
  {
    hide Xor, Shift;
    if n > 0 {
      ShiftsAreLinear(x, y, n - 1);
      ShiftIsLinear(Shifts(x, n - 1), Shifts(y, n - 1));
    }
  }

  /** A low byte is only moved up by eight shifts. */
  lemma {:induction false} LowByteShifts(x: bv16)
    requires x & 0xFF00 == 0
    ensures Shifts(x, 8) == x << 8
  {
    var s1 := x << 1;
    assert Shifts(x, 1) == s1 by { assert Shifts(x, 0) == x; }
    assert Shifts(x, 2) == x << 2;
    assert Shifts(x, 3) == x << 3;
    assert Shifts(x, 4) == x << 4;
    assert Shifts(x, 5) == x << 5;
    assert Shifts(x, 6) == x << 6;
    assert Shifts(x, 7) == x << 7;
  }

  /** XOR of two strings of equal length. */
  function XorAll(a: seq<bv8>, b: seq<bv8>): seq<bv8>
    requires |a| == |b|
  {
    seq(|a|, i requires 0 <= i < |a| => a[i] ^ b[i])
  }

  lemma {:induction false} HighXor(a: bv8, b: bv8)
    ensures High(a ^ b) == Xor(High(a), High(b))
  {
  }

  lemma {:induction false} XorInterchange(a: bv16, b: bv16, p: bv16, q: bv16)
    ensures Xor(Xor(a, p), Xor(b, q)) == Xor(Xor(a, b), Xor(p, q))
  {
    hide Xor;
    XorAssociates(a, p, Xor(b, q));
    XorAssociates(p, b, q);
    XorCommutes(p, b);
    XorAssociates(b, p, q);
    XorAssociates(a, b, Xor(p, q));
  }

  lemma {:induction false} XorAssociates(a: bv16, b: bv16, c: bv16)
    ensures Xor(Xor(a, b), c) == Xor(a, Xor(b, c))
  {
  }

  lemma {:induction false} XorCommutes(a: bv16, b: bv16)
    ensures Xor(a, b) == Xor(b, a)
  {
  }

  /** The CRC is linear over strings of equal length. */
  lemma {:induction false} CrcIsLinear(a: seq<bv8>, b: seq<bv8>)
    requires |a| == |b|
    ensures Crc16(XorAll(a, b)) == Xor(Crc16(a), Crc16(b))
  {
    hide Xor, Shifts, High;
    if a != [] {
      var n := |a| - 1;
      var x, y := Crc16(a[..n]), Crc16(b[..n]);
      CrcIsLinear(a[..n], b[..n]);
      XorAllFront(a, b);
      HighXor(a[n], b[n]);
      XorInterchange(x, y, High(a[n]), High(b[n]));
      ShiftsAreLinear(Xor(x, High(a[n])), Xor(y, High(b[n])), 8);
    } else {
      assert Xor(0, 0) == 0 by { XorNothing(); }
    }
  }

  lemma {:induction false} XorNothing()
    ensures Xor(0, 0) == 0
  {
  }

  lemma {:induction false} XorAllFront(a: seq<bv8>, b: seq<bv8>)
    requires |a| == |b| > 0
    ensures var n := |a| - 1;
            XorAll(a, b)[..n] == XorAll(a[..n], b[..n]) && XorAll(a, b)[n] == a[n] ^ b[n] && |XorAll(a, b)| == n + 1
  {
  }

  // --- The table ---------------------------------------------------------------------

  function HighByte(crc: bv16): bv8 {
    (crc >> 8) as bv8
  }

  function LowByte(crc: bv16): bv16 {
    crc & 0x00FF
  }

  function Up8(crc: bv16): bv16 {
    crc << 8
  }

  lemma {:induction false} WordSplits(crc: bv16, c: bv8)
    ensures Xor(crc, High(c)) == Xor(LowByte(crc), High(HighByte(crc) ^ c))
    ensures LowByte(crc) & 0xFF00 == 0
    ensures Up8(LowByte(crc)) == Up8(crc)
  {
  }

  /** One byte through the table is eight single shifts. */
  lemma {:induction false} TableStep(crc: bv16, c: bv8)
    ensures Shifts(Xor(crc, High(c)), 8) == Xor(Up8(crc), Shifts(High(HighByte(crc) ^ c), 8))
  {
    WordSplits(crc, c);
    LowByteMoves(crc);
    ShiftsAreLinear(LowByte(crc), High(HighByte(crc) ^ c), 8);
    Rewrite(crc, High(HighByte(crc) ^ c), Xor(crc, High(c)));
  }

  lemma {:induction false} LowByteMoves(crc: bv16)
    ensures Shifts(LowByte(crc), 8) == Up8(crc)
  {
    hide Shifts;
    WordSplits(crc, 0);
    LowByteShifts(LowByte(crc));
  }

  lemma {:induction false} Rewrite(crc: bv16, entry: bv16, mixed: bv16)
    requires mixed == Xor(LowByte(crc), entry) && Shifts(LowByte(crc), 8) == Up8(crc)
    requires Shifts(Xor(LowByte(crc), entry), 8) == Xor(Shifts(LowByte(crc), 8), Shifts(entry, 8))
    ensures Shifts(mixed, 8) == Xor(Up8(crc), Shifts(entry, 8))
  {
    hide Shifts, Xor, Up8, LowByte;
  }

  function TableEntry(i: int): bv16
    requires 0 <= i < 256
  {
    Shifts(High(i as bv8), 8)
  }

  /** makeCRCTable */
  method MakeTable() returns (t: seq<bv16>)
    ensures |t| == 256 && forall i :: 0 <= i < 256 ==> t[i] == TableEntry(i)
  {
    t := [];
    for i := 0 to 256
      invariant |t| == i && forall j :: 0 <= j < i ==> t[j] == TableEntry(j)
    {
      var crc := High(i as bv8);
      for bit := 0 to 8
        invariant crc == Shifts(High(i as bv8), bit)
      {
        if crc & 0x8000 != 0 {
          crc := (crc << 1) ^ POLY;
        } else {
          crc := crc << 1;
        }
      }
      t := t + [crc];
    }
  }

  /** crc16, one table lookup a byte: equal to the bit-serial CRC of every string. */
  method TableCrc16(data: seq<bv8>) returns (crc: bv16)
    ensures crc == Crc16(data)
  {
    hide Shifts, Xor, Up8, High, HighByte, TableEntry;
    var table := MakeTable();
    crc := 0;
    for i := 0 to |data|
      invariant crc == Crc16(data[..i])
    {
      var index := HighByte(crc) ^ data[i];
      IndexRoundTrip(index);
      CrcOfMore(data, i);
      TableStep(crc, data[i]);
      crc := Xor(Up8(crc), table[index as int]);
    }
    assert data[..|data|] == data;
  }

  lemma {:induction false} CrcOfMore(data: seq<bv8>, i: nat)
    requires i < |data|
    ensures Crc16(data[..i + 1]) == Shifts(Xor(Crc16(data[..i]), High(data[i])), 8)
  {
    hide Shifts, Xor, High;
    assert data[..i + 1][..i] == data[..i];
  }

  lemma {:induction false} IndexRoundTrip(b: bv8)
    ensures 0 <= b as int < 256 && TableEntry(b as int) == Shifts(High(b), 8)
  {
    hide Shifts, High;
    assert (b as int) as bv8 == b;
  }

  /** The bit-serial loop of the benchmark gate. */
  method SerialCrc16(data: seq<bv8>) returns (crc: bv16)
    ensures crc == Crc16(data)
  {
    crc := 0;
    for i := 0 to |data|
      invariant crc == Crc16(data[..i])
    {
      crc := Xor(crc, High(data[i]));
      ghost var start := crc;
      for bit := 0 to 8
        invariant crc == Shifts(start, bit)
      {
        crc := if crc & 0x8000 != 0 then (crc << 1) ^ POLY else crc << 1;
      }
      assert data[..i + 1][..i] == data[..i];
    }
    assert data[..|data|] == data;
  }

  // --- Hash tags and slots --------------------------------------------------------------

  const OPEN: bv8 := 123
  const CLOSE: bv8 := 125

  /** The first b in s, or |s|. */
  function IndexOf(s: seq<bv8>, b: bv8): (i: nat)
    ensures i <= |s| && (i < |s| ==> s[i] == b) && forall k :: 0 <= k < i ==> s[k] != b
  {
    if s == [] || s[0] == b then 0 else IndexOf(s[1..], b) + 1
  }

  function HashTag(key: seq<bv8>): seq<bv8> {
    var open := IndexOf(key, OPEN);
    if open == |key| then key
    else
      var rest := key[open + 1..];
      var close := IndexOf(rest, CLOSE);
      if 0 < close < |rest| then rest[..close] else key
  }

  /** One scan of hashtag: the first b, or the length. */
  method Scan(s: seq<bv8>, b: bv8) returns (i: nat)
    ensures i == IndexOf(s, b)
  {
    hide IndexOf;
    i := 0;
    assert s[0..] == s;
    while i < |s| && s[i] != b
      invariant i <= |s| && IndexOf(s, b) == i + IndexOf(s[i..], b)
    {
      ScanStep(s, b, i);
      i := i + 1;
    }
    ScanStop(s, b, i);
  }

  lemma {:induction false} ScanStep(s: seq<bv8>, b: bv8, i: nat)
    requires i < |s| && s[i] != b
    ensures IndexOf(s[i..], b) == 1 + IndexOf(s[i + 1..], b)
  {
    assert s[i..][1..] == s[i + 1..];
  }

  lemma {:induction false} ScanStop(s: seq<bv8>, b: bv8, i: nat)
    requires i <= |s| && (i < |s| ==> s[i] == b)
    ensures IndexOf(s[i..], b) == 0
  {
  }

  /** hashtag */
  method HashTagScan(key: seq<bv8>) returns (tag: seq<bv8>)
    ensures tag == HashTag(key)
  {
    hide IndexOf;
    var open := Scan(key, OPEN);
    if open == |key| {
      return key;
    }
    var rest := key[open + 1..];
    var close := Scan(rest, CLOSE);
    if close < |rest| && close > 0 {
      return rest[..close];
    }
    return key;
  }

  lemma {:induction false} IndexIsFirst(s: seq<bv8>, b: bv8, i: nat)
    requires i <= |s| && b !in s[..i] && (i < |s| ==> s[i] == b)
    ensures IndexOf(s, b) == i
  {
    assert forall k :: 0 <= k < i ==> s[..i][k] == s[k];
  }

  /** key = before {tag} after, the braces being the first pair and the tag not empty. */
  ghost predicate Tagged(key: seq<bv8>, before: seq<bv8>, tag: seq<bv8>, after: seq<bv8>) {
    key == before + [123] + tag + [125] + after && 123 !in before && 125 !in tag && tag != []
  }

  /** A tagged key hashes its tag. */
  lemma {:induction false} TaggedKeyHashesTag(key: seq<bv8>, before: seq<bv8>, tag: seq<bv8>, after: seq<bv8>)
    requires Tagged(key, before, tag, after)
    ensures HashTag(key) == tag
  {
    hide IndexOf;
    var rest := tag + [CLOSE] + after;
    assert key == before + [OPEN] + rest;
    assert key[..|before|] == before && key[|before| + 1..] == rest;
    IndexIsFirst(key, OPEN, |before|);
    assert rest[..|tag|] == tag;
    IndexIsFirst(rest, CLOSE, |tag|);
  }

  /** Every other key hashes whole: a shorter hash comes with its braces. */
  lemma {:induction false} UntaggedKeyHashesWhole(key: seq<bv8>)
    requires forall before, tag, after :: !Tagged(key, before, tag, after)
    ensures HashTag(key) == key
  {
    if HashTag(key) != key {
      var before, tag, after := TagOf(key);
      assert false;
    }
  }

  lemma {:induction false} TagOf(key: seq<bv8>) returns (before: seq<bv8>, tag: seq<bv8>, after: seq<bv8>)
    requires HashTag(key) != key
    ensures Tagged(key, before, tag, after)
  {
    hide IndexOf;
    var open := IndexOf(key, OPEN);
    var rest := key[open + 1..];
    var close := IndexOf(rest, CLOSE);
    before, tag, after := key[..open], rest[..close], rest[close + 1..];
    assert rest == tag + [CLOSE] + after;
    assert key == before + [OPEN] + rest;
  }

  /** Hashing a tag again gives the tag. */
  lemma {:induction false} HashTagIsIdempotent(key: seq<bv8>)
    ensures HashTag(HashTag(key)) == HashTag(key)
  {
    var tag := HashTag(key);
    if tag != key {
      assert CLOSE !in tag;
      var open := IndexOf(tag, OPEN);
      if open < |tag| {
        var rest := tag[open + 1..];
        assert CLOSE !in rest;
        IndexIsFirst(rest, CLOSE, |rest|);
      }
    }
  }

  function Mask(x: bv16): bv16 {
    x & 0x3FFF
  }

  /** The slot of a key, as a word. */
  function Slot(key: seq<bv8>): bv16 {
    Mask(Crc16(HashTag(key)))
  }

  lemma {:induction false} MaskIsModulo(x: bv16)
    ensures Mask(x) < 16384 && Mask(x) == x % 16384
  {
  }

  lemma {:induction false} SlotRange(x: bv16)
    requires x < 16384
    ensures 0 <= x as int < 16384
  {
  }

  /** A slot is one of 16384, and is the CRC of the tag modulo 16384. */
  lemma {:induction false} SlotInRange(key: seq<bv8>)
    ensures 0 <= Slot(key) as int < 16384 && Slot(key) == Crc16(HashTag(key)) % 16384
  {
    MaskIsModulo(Crc16(HashTag(key)));
    SlotRange(Slot(key));
  }

  /** The slot as an index into the slot table. */
  function SlotIndex(key: seq<bv8>): (n: nat)
    ensures n < 16384
  {
    SlotInRange(key);
    Slot(key) as int
  }

  /** A key lives in the slot of its tag, so keys with one tag share a slot. */
  lemma {:induction false} KeysRouteWithTheirTag(key: seq<bv8>, other: seq<bv8>)
    ensures SlotIndex(HashTag(key)) == SlotIndex(key)
    ensures HashTag(key) == HashTag(other) ==> SlotIndex(key) == SlotIndex(other)
  {
    hide Crc16;
    HashTagIsIdempotent(key);
  }

  /** KeyHashSlot */
  method KeyHashSlot(key: seq<bv8>) returns (slot: nat)
    ensures slot == SlotIndex(key)
  {
    hide Crc16, HashTag, Mask;
    var tag := HashTagScan(key);
    var crc := TableCrc16(tag);
    SlotInRange(key);
    slot := Mask(crc) as int;
  }

  function Eight(x: bv16): bv16 {
    Shift(Shift(Shift(Shift(Shift(Shift(Shift(Shift(x))))))))
  }

  lemma {:induction false} EightShifts(x: bv16)
    ensures Shifts(x, 8) == Eight(x)
  {
    hide Shift;
    assert Shifts(x, 1) == Shift(Shifts(x, 0));
    assert Shifts(x, 2) == Shift(Shifts(x, 1));
    assert Shifts(x, 3) == Shift(Shifts(x, 2));
    assert Shifts(x, 4) == Shift(Shifts(x, 3));
    assert Shifts(x, 5) == Shift(Shifts(x, 4));
    assert Shifts(x, 6) == Shift(Shifts(x, 5));
  }

  lemma {:induction false} CrcStep(d: seq<bv8>, i: nat, b: bv8, before: bv16, after: bv16)
    requires i < |d| && d[i] == b && Crc16(d[..i]) == before && Eight(Xor(before, High(b))) == after
    ensures Crc16(d[..i + 1]) == after
  {
    hide Shifts, Xor, High, Eight;
    EightShifts(Xor(before, High(b)));
    CrcOfMore(d, i);
  }

  lemma {:induction false} CrcOfNothing()
    ensures Crc16([]) == 0
  {
  }

  /** The check vector of the standard: the CRC of the digits 1 to 9. */
  lemma {:induction false} CheckVector()
    ensures Crc16([49, 50, 51, 52, 53, 54, 55, 56, 57]) == 0x31C3
  {
    hide Crc16;
    CrcOfNothing();
    var d: seq<bv8> := [49, 50, 51, 52, 53, 54, 55, 56, 57];
    assert d[..0] == [];
    CrcStep(d, 0, 49, 0x0, 0x2672);
    CrcStep(d, 1, 50, 0x2672, 0x20b5);
    CrcStep(d, 2, 51, 0x20b5, 0x9752);
    CrcStep(d, 3, 52, 0x9752, 0xd789);
    CrcStep(d, 4, 53, 0xd789, 0x546c);
    CrcStep(d, 5, 54, 0x546c, 0x20e4);
    CrcStep(d, 6, 55, 0x20e4, 0x86d6);
    CrcStep(d, 7, 56, 0x86d6, 0x9015);
    CrcStep(d, 8, 57, 0x9015, 0x31c3);
    assert d[..9] == d;
  }
}
