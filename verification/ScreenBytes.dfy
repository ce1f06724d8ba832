/** The screen byte for byte: where each control sequence lands, given the bytes that write it. */
module ScreenBytes {
  import opened Bytes
  import opened Screen

  // --- Writing a sequence ------------------------------------------------------------------

  /** A number as it may be written: any zeros, then its digits. */
  function Numeral(zeros: nat, n: nat): seq<Byte> {
    Zeros(zeros) + Digits(n)
  }

  /** ESC [ params final */
  function Sequence(params: seq<Byte>, final: Byte): seq<Byte> {
    [27, 91] + params + [final]
  }

  /** Digits, ';' and '?'. */
  predicate ParamBytes(s: seq<Byte>) {
    forall i :: 0 <= i < |s| ==> 48 <= s[i] <= 57 || s[i] == 59 || s[i] == 63
  }

  predicate Letter(b: Byte) {
    65 <= b <= 90 || 97 <= b <= 122
  }

  lemma {:induction false} NumeralIsDigits(zeros: nat, n: nat)
    ensures Numeral(zeros, n) != [] && AllDigits(Numeral(zeros, n)) && Num(Numeral(zeros, n)) == n
  {
    PaddedValue(zeros, n);
    DigitsParse(n);
  }

  lemma {:induction false} ParamsEndAt(data: seq<Byte>, i: nat, j: nat)
    requires i <= j < |data| && (forall k :: i <= k < j ==> IsParam(data[k])) && !IsParam(data[j])
    ensures ParamsEnd(data, i) == j
  {
    var e := ParamsEnd(data, i);
    assert !(e < j) && !(e > j);
  }

  /** A written sequence is one step of the screen. */
  lemma {:induction false} SequenceIsOneStep(t: Term, params: seq<Byte>, final: Byte)
    requires ParamBytes(params) && Letter(final)
    ensures Feed(t, Sequence(params, final)) == Csi(t, params, final)
  {
    hide Csi, Control, Feed;
    var data := Sequence(params, final);
    var n := |data|;
    assert forall k :: 2 <= k < n - 1 ==> data[k] == params[k - 2];
    assert data[n - 1] == final && data[2..n - 1] == params && data[..n] == data;
    ParamsEndAt(data, 2, n - 1);
    assert CsiLength(data) == n;
    FeedFirst(t, data);
  }

  // --- Fields --------------------------------------------------------------------------------

  lemma {:induction false} OneField(s: seq<Byte>)
    requires 59 !in s
    ensures Fields(s) == [s]
  {
    if s != [] {
      OneField(s[1..]);
      assert [s[0]] + s[1..] == s;
    }
  }

  /** What stands before the first ';' is the first field, and what follows it makes the others. */
  lemma {:induction false} FieldThenRest(s: seq<Byte>, rest: seq<Byte>)
    requires 59 !in s
    ensures Fields(s + [59] + rest) == [s] + Fields(rest)
  {
    var all := s + [59] + rest;
    if s == [] {
      assert all[1..] == rest;
    } else {
      FieldThenRest(s[1..], rest);
      assert all[1..] == s[1..] + [59] + rest;
      assert [s[0]] + s[1..] == s;
    }
  }

  lemma {:induction false} DigitsAreParams(s: seq<Byte>)
    requires AllDigits(s)
    ensures ParamBytes(s) && 59 !in s
  {
    assert forall i :: 0 <= i < |s| ==> IsDigit(s[i]);
  }

  /** One number: it is the first parameter, and there is no second. */
  lemma {:induction false} OneNumber(zeros: nat, n: nat)
    ensures ParamBytes(Numeral(zeros, n))
    ensures Param(Numeral(zeros, n), 0) == n && Param(Numeral(zeros, n), 1) == 0
  {
    hide Numeral, Num;
    NumeralIsDigits(zeros, n);
    DigitsAreParams(Numeral(zeros, n));
    OneField(Numeral(zeros, n));
  }

  /** Two numbers around a ';'. */
  lemma {:induction false} TwoNumbers(y: nat, r: nat, x: nat, c: nat)
    ensures var params := Numeral(y, r) + [59] + Numeral(x, c);
            ParamBytes(params) && Param(params, 0) == r && Param(params, 1) == c
  {
    hide Numeral, Num, Fields;
    NumeralIsDigits(y, r);
    NumeralIsDigits(x, c);
    DigitsAreParams(Numeral(y, r));
    DigitsAreParams(Numeral(x, c));
    FieldThenRest(Numeral(y, r), Numeral(x, c));
    OneField(Numeral(x, c));
  }

  // --- Where sequences land ---------------------------------------------------------------------

  /** A coordinate counts from one; zero stands for one. */
  function FromOne(n: nat): nat {
    if n == 0 then 0 else n - 1
  }

  /** ESC [ r ; c H puts the cursor on row r, column c, counted from one. */
  lemma {:induction false} GotoLands(t: Term, y: nat, r: nat, x: nat, c: nat)
    ensures Feed(t, Sequence(Numeral(y, r) + [59] + Numeral(x, c), 72)) == Some(t.(row := FromOne(r), col := FromOne(c)))
  {
    hide Feed, Numeral, Param, Sequence;
    TwoNumbers(y, r, x, c);
    SequenceIsOneStep(t, Numeral(y, r) + [59] + Numeral(x, c), 72);
  }

  /** ESC [ r H goes to the start of row r, and ESC [ H to the top left. */
  lemma {:induction false} HomeLands(t: Term, y: nat, r: nat)
    ensures Feed(t, Sequence(Numeral(y, r), 72)) == Some(t.(row := FromOne(r), col := 0))
    ensures Feed(t, [27, 91, 72]) == Some(t.(row := 0, col := 0))
  {
    hide Feed, Numeral;
    OneNumber(y, r);
    SequenceIsOneStep(t, Numeral(y, r), 72);
    SequenceIsOneStep(t, [], 72);
    assert Sequence([], 72) == [27, 91, 72];
  }

  /** The cursor after n of the moves A, B, C, D, or G with n. */
  function Moved(t: Term, n: nat, final: Byte): Term {
    var k := if n == 0 then 1 else n;
    match final
    case 65 => t.(row := if k <= t.row then t.row - k else 0)
    case 66 => t.(row := t.row + k)
    case 67 => t.(col := if t.col + k <= t.cols - 1 then t.col + k else t.cols - 1)
    case 68 => t.(col := if k <= t.col then t.col - k else 0)
    case _ => t.(col := FromOne(n))
  }

  /** ESC [ n A moves up by n, B down, C right to the margin at most, D left, and G goes to column n; without a count it is one. */
  lemma {:induction false} MovesLand(t: Term, z: nat, n: nat, final: Byte)
    requires final in {65, 66, 67, 68, 71}
    ensures Feed(t, Sequence(Numeral(z, n), final)) == Some(Moved(t, n, final))
    ensures Feed(t, [27, 91, final]) == Some(Moved(t, 0, final))
  {
    hide Feed, Numeral;
    OneNumber(z, n);
    SequenceIsOneStep(t, Numeral(z, n), final);
    SequenceIsOneStep(t, [], final);
    assert Sequence([], final) == [27, 91, final];
  }

  /** ESC [ params m writes what follows under exactly these parameters; none, or a lone zero, is the plain attribute. */
  lemma {:induction false} AttributeIsSet(t: Term, params: seq<Byte>)
    requires ParamBytes(params)
    ensures Feed(t, Sequence(params, 109)) == Some(t.(attr := if params == [48] then [] else params))
  {
    hide Feed;
    SequenceIsOneStep(t, params, 109);
  }

  /** What ESC [ n J and ESC [ n K blank. */
  predicate Blanked(t: Term, n: nat, final: Byte, r: nat, c: nat) {
    if final == 74 then n == 2 || r > t.row || (r == t.row && c >= t.col)
    else r == t.row && (n == 0 ==> c >= t.col) && (n == 1 ==> c < t.col)
  }

  /** ESC [ n J blanks below the cursor, or everything for 2; ESC [ n K the row's right, its left for 1, or all of it; all else stays. */
  lemma {:induction false} ErasuresLand(t: Term, z: nat, n: nat, final: Byte, r: nat, c: nat)
    requires final == 74 || final == 75
    ensures var u := Feed(t, Sequence(Numeral(z, n), final));
            && u.Some? && u.value == t.(rows := u.value.rows)
            && CellAt(u.value, r, c) == if Blanked(t, n, final, r, c) then BLANK else CellAt(t, r, c)
    ensures var u := Feed(t, [27, 91, final]);
            && u.Some? && u.value == t.(rows := u.value.rows)
            && CellAt(u.value, r, c) == if Blanked(t, 0, final, r, c) then BLANK else CellAt(t, r, c)
  {
    hide Feed, Numeral, EraseLine, Lengthen, CellAt;
    OneNumber(z, n);
    SequenceIsOneStep(t, Numeral(z, n), final);
    CsiCells(t, Numeral(z, n), final, r, c);
    SequenceIsOneStep(t, [], final);
    CsiCells(t, [], final, r, c);
    assert Sequence([], final) == [27, 91, final];
  }

  /** CR returns to the margin, LF starts the next row, BS steps back, BEL shows nothing. */
  lemma {:induction false} ControlsLand(t: Term)
    ensures Feed(t, [13]) == Some(t.(col := 0))
    ensures Feed(t, [10]) == Some(t.(row := t.row + 1, col := 0))
    ensures Feed(t, [8]) == Some(t.(col := if t.col == 0 then 0 else t.col - 1))
    ensures Feed(t, [7]) == Some(t)
  {
    FeedFirst(t, [13]);
    FeedFirst(t, [10]);
    FeedFirst(t, [8]);
    FeedFirst(t, [7]);
    assert [13][..1] == [13] && [10][..1] == [10] && [8][..1] == [8] && [7][..1] == [7];
  }

  /** Any other byte but ESC is shown. */
  lemma {:induction false} OthersAreShown(t: Term, ch: Byte)
    requires ch !in {27, 13, 10, 8, 7}
    ensures Feed(t, [ch]) == Some(Put(t, ch))
  {
    FeedFirst(t, [ch]);
    assert [ch][..1] == [ch];
  }

  /** A character sent after ESC [ r ; c H is shown at row r, column c, and nothing else on the screen changes. */
  lemma {:induction false} TypedWhereSent(t: Term, y: nat, r: nat, x: nat, c: nat, ch: Byte, i: nat, j: nat)
    requires 1 <= r && 1 <= c <= t.cols && ch !in {27, 13, 10, 8, 7}
    ensures var u := Feed(t, Sequence(Numeral(y, r) + [59] + Numeral(x, c), 72) + [ch]);
            && u.Some? && u.value.row == r - 1 && u.value.col == c
            && CellAt(u.value, i, j) == if i == r - 1 && j == c - 1 then Cell(ch, t.attr) else CellAt(t, i, j)
  {
    hide Feed, Numeral, Sequence, CellAt, Put;
    var goto := Sequence(Numeral(y, r) + [59] + Numeral(x, c), 72);
    var at := t.(row := r - 1, col := c - 1);
    GotoLands(t, y, r, x, c);
    FeedSplits(t, goto, [ch]);
    OthersAreShown(at, ch);
    PutCells(at, ch, i, j);
    SameCells(t, at, i, j);
  }

  lemma {:induction false} SameCells(t: Term, u: Term, i: nat, j: nat)
    requires t.rows == u.rows
    ensures CellAt(t, i, j) == CellAt(u, i, j)
  {
  }

  // --- What is not modelled ----------------------------------------------------------------------

  predicate Modelled(final: Byte) {
    final in {65, 66, 67, 68, 71, 72, 74, 75, 109}
  }

  /** data starts with a sequence that the screen knows. */
  ghost predicate StartsKnown(data: seq<Byte>) {
    exists params, final, rest :: IsKnown(data, params, final, rest)
  }

  ghost predicate IsKnown(data: seq<Byte>, params: seq<Byte>, final: Byte, rest: seq<Byte>) {
    ParamBytes(params) && Modelled(final) && data == Sequence(params, final) + rest
  }

  lemma {:induction false} KnownIsFed(t: Term, data: seq<Byte>, params: seq<Byte>, final: Byte, rest: seq<Byte>)
    requires IsKnown(data, params, final, rest)
    ensures Csi(t, params, final).Some? && Feed(t, data) == Feed(Csi(t, params, final).value, rest)
  {
    hide Feed, Param, EraseLine, Lengthen;
    SequenceIsOneStep(t, params, final);
    FeedSplits(t, Sequence(params, final), rest);
  }

  lemma {:induction false} FedIsKnown(t: Term, data: seq<Byte>)
    requires data != [] && data[0] == ESC && Feed(t, data).Some?
    ensures StartsKnown(data)
  {
    hide Param, EraseLine, Lengthen;
    var n := CsiLength(data);
    var params, final := data[2..n - 1], data[n - 1];
    assert data == Sequence(params, final) + data[n..];
    assert IsKnown(data, params, final, data[n..]);
  }

  /** An escape that is fed is a sequence of known letter and parameter bytes; any other stops the screen. */
  lemma {:induction false} UnknownEscapesFail(t: Term, data: seq<Byte>)
    requires data != [] && data[0] == ESC && !StartsKnown(data)
    ensures Feed(t, data) == None
  {
    hide Feed, StartsKnown;
    if Feed(t, data).Some? {
      FedIsKnown(t, data);
    }
  }
}
