/** What a terminal shows after a byte stream: bench/cligate_screen.py. Erase and cursor controls follow section 8.3 of ECMA-48. */
module Screen {
  import opened Bytes

  const ESC: Byte := 27
  const BS: Byte := 8
  const BEL: Byte := 7

  /** A character and the SGR parameters it was written under. */
  datatype Cell = Cell(ch: Byte, attr: seq<Byte>)
  type Row = seq<Cell>

  const BLANK := Cell(32, [])

  type Width = n: int | n >= 1 witness 80

  datatype Term = Term(cols: Width, rows: seq<Row>, row: nat, col: nat, attr: seq<Byte>)

  function Blanks(n: nat): Row {
    seq(n, _ => BLANK)
  }

  /** _line: rows are added down to the cursor. */
  function Lengthen(rows: seq<Row>, row: nat): (r: seq<Row>)
    ensures row < |r| && |rows| <= |r| && rows <= r && (|r| == |rows| || |r| == row + 1)
    ensures forall i :: |rows| <= i < |r| ==> r[i] == []
  {
    if row < |rows| then rows else rows + seq(row + 1 - |rows|, _ => [])
  }

  /** The cursor's row with ch written at the cursor. */
  function Write(line: Row, col: nat, c: Cell): (r: Row)
    ensures |r| == if col < |line| then |line| else col + 1
  {
    if col < |line| then line[col := c] else line + Blanks(col - |line|) + [c]
  }

  function Put(t: Term, ch: Byte): Term {
    var row := if t.col >= t.cols then t.row + 1 else t.row;
    var col := if t.col >= t.cols then 0 else t.col;
    var rows := Lengthen(t.rows, row);
    t.(rows := rows[row := Write(rows[row], col, Cell(ch, t.attr))], row := row, col := col + 1)
  }

  // --- Control sequences --------------------------------------------------------------------

  function Num(p: seq<Byte>): nat {
    if p != [] && AllDigits(p) then DecimalValue(p) else 0
  }

  /** Split at semicolons. */
  function Fields(s: seq<Byte>): (f: seq<seq<Byte>>)
    ensures f != []
  {
    if s == [] then [[]]
    else
      var rest := Fields(s[1..]);
      if s[0] == 59 then [[]] + rest else [[s[0]] + rest[0]] + rest[1..]
  }

  /** The k-th number of the parameters, or zero. */
  function Param(params: seq<Byte>, k: nat): nat {
    if params == [] || k >= |Fields(params)| then 0 else Num(Fields(params)[k])
  }

  function Less1(n: nat): nat {
    if n > 0 then n - 1 else 0
  }

  function Take(line: Row, n: nat): Row {
    if n <= |line| then line[..n] else line
  }

  /** K: erase to the right of the cursor, to its left, or the whole row. */
  function EraseLine(line: Row, col: nat, mode: nat): (r: Row)
    ensures |r| <= |line|
  {
    if mode == 0 then Take(line, col)
    else if mode == 1 then
      var n := if col < |line| then col else |line|;
      Blanks(n) + line[n..]
    else []
  }

  /** csi: None for a sequence that is not modelled. */
  function Csi(t: Term, params: seq<Byte>, final: Byte): Option<Term> {
    var p0, p1 := Param(params, 0), Param(params, 1);
    var n := if p0 > 0 then p0 else 1;
    if final == 65 then Some(t.(row := if t.row < n then 0 else t.row - n))                        // A
    else if final == 66 then Some(t.(row := t.row + n))                                            // B
    else if final == 67 then Some(t.(col := if t.cols - 1 < t.col + n then t.cols - 1 else t.col + n))     // C
    else if final == 68 then Some(t.(col := if t.col < n then 0 else t.col - n))                   // D
    else if final == 71 then Some(t.(col := Less1(p0)))                                            // G
    else if final == 72 then Some(t.(row := Less1(p0), col := Less1(p1)))                          // H
    else if final == 74 then                                                                       // J
      if p0 == 2 then Some(t.(rows := seq(|t.rows|, _ => [])))
      else
        var rows := Lengthen(t.rows, t.row);
        Some(t.(rows := rows[..t.row] + [Take(rows[t.row], t.col)]))
    else if final == 75 then                                                                       // K
      var rows := Lengthen(t.rows, t.row);
      Some(t.(rows := rows[t.row := EraseLine(rows[t.row], t.col, p0)]))
    else if final == 109 then Some(t.(attr := if params == [48] then [] else params))              // m
    else None
  }

  predicate IsParam(b: Byte) {
    IsDigit(b) || b == 59 || b == 63
  }

  predicate IsLetter(b: Byte) {
    65 <= b <= 90 || 97 <= b <= 122
  }

  /** The first byte at or after i that is no parameter byte. */
  function ParamsEnd(data: seq<Byte>, i: nat): (j: nat)
    requires i <= |data|
    ensures i <= j <= |data| && (j < |data| ==> !IsParam(data[j]))
    ensures forall k :: i <= k < j ==> IsParam(data[k])
    decreases |data| - i
  {
    if i == |data| || !IsParam(data[i]) then i else ParamsEnd(data, i + 1)
  }

  /** The length of the control sequence at the front of data, or zero. */
  function CsiLength(data: seq<Byte>): (n: nat)
    ensures n <= |data| && (n > 0 ==> n >= 3)
  {
    if |data| < 3 || data[0] != ESC || data[1] != 91 then 0
    else
      var j := ParamsEnd(data, 2);
      if j < |data| && IsLetter(data[j]) then j + 1 else 0
  }

  function Control(t: Term, b: Byte): Term {
    if b == CR then t.(col := 0)
    else if b == LF then t.(row := t.row + 1, col := 0)
    else if b == BS then t.(col := Less1(t.col))
    else if b == BEL then t
    else Put(t, b)
  }

  /** feed: None where it raises. */
  function Feed(t: Term, data: seq<Byte>): Option<Term>
    decreases |data|
  {
    if data == [] then Some(t)
    else if data[0] == ESC then
      var n := CsiLength(data);
      if n == 0 then None
      else
        match Csi(t, data[2..n - 1], data[n - 1])
        case None => None
        case Some(u) => Feed(u, data[n..])
    else Feed(Control(t, data[0]), data[1..])
  }

  // --- Every reachable screen ----------------------------------------------------------------

  /** No row is wider than the screen. */
  predicate Fits(t: Term) {
    forall i :: 0 <= i < |t.rows| ==> |t.rows[i]| <= t.cols
  }

  lemma {:induction false} CsiFits(t: Term, params: seq<Byte>, final: Byte)
    requires Fits(t) && Csi(t, params, final).Some?
    ensures Fits(Csi(t, params, final).value) && Csi(t, params, final).value.cols == t.cols
  {
  }

  /** Whatever bytes are fed, no row outgrows the screen. */
  lemma {:induction false} FeedFits(t: Term, data: seq<Byte>)
    requires Fits(t) && Feed(t, data).Some?
    ensures Fits(Feed(t, data).value) && Feed(t, data).value.cols == t.cols
    decreases |data|
  {
    hide Csi, CsiLength;
    if data != [] {
      if data[0] == ESC {
        var n := CsiLength(data);
        CsiFits(t, data[2..n - 1], data[n - 1]);
        FeedFits(Csi(t, data[2..n - 1], data[n - 1]).value, data[n..]);
      } else {
        FeedFits(Control(t, data[0]), data[1..]);
      }
    }
  }

  // --- Feeding in pieces -----------------------------------------------------------------------

  lemma {:induction false} ParamsEndStable(data: seq<Byte>, more: seq<Byte>, i: nat)
    requires i <= |data| && ParamsEnd(data, i) < |data|
    ensures ParamsEnd(data + more, i) == ParamsEnd(data, i)
    decreases |data| - i
  {
    if IsParam(data[i]) {
      ParamsEndStable(data, more, i + 1);
    }
  }

  lemma {:induction false} CsiLengthStable(data: seq<Byte>, more: seq<Byte>)
    requires CsiLength(data) > 0
    ensures CsiLength(data + more) == CsiLength(data)
  {
    ParamsEndStable(data, more, 2);
  }

  /** Feeding a stream is feeding its pieces, at any cut that the first piece can be fed up to. */
  lemma {:induction false} FeedSplits(t: Term, a: seq<Byte>, b: seq<Byte>)
    requires Feed(t, a).Some?
    ensures Feed(t, a + b) == Feed(Feed(t, a).value, b)
    decreases |a|
  {
    hide Csi, CsiLength, Control;
    if a == [] {
      assert a + b == b;
    } else if a[0] == ESC {
      var n := CsiLength(a);
      CsiLengthStable(a, b);
      assert (a + b)[2..n - 1] == a[2..n - 1] && (a + b)[n..] == a[n..] + b;
      FeedSplits(Csi(t, a[2..n - 1], a[n - 1]).value, a[n..], b);
    } else {
      assert (a + b)[1..] == a[1..] + b;
      FeedSplits(Control(t, a[0]), a[1..], b);
    }
  }

  lemma {:induction false} ParamsEndOfPrefix(data: seq<Byte>, i: nat, n: nat)
    requires i <= |data| && ParamsEnd(data, i) < n <= |data|
    ensures ParamsEnd(data[..n], i) == ParamsEnd(data, i)
    decreases |data| - i
  {
    if IsParam(data[i]) {
      ParamsEndOfPrefix(data, i + 1, n);
    }
  }

  /** One control sequence, or one other byte, is fed on its own. */
  lemma {:induction false} FeedFirst(t: Term, data: seq<Byte>)
    requires data != []
    ensures data[0] != ESC ==> Feed(t, data[..1]) == Some(Control(t, data[0]))
    ensures var n := CsiLength(data);
            data[0] == ESC && n > 0 ==> Feed(t, data[..n]) == Csi(t, data[2..n - 1], data[n - 1])
  {
    hide Csi, Control;
    if data[0] != ESC {
      assert data[..1][1..] == [];
    } else if CsiLength(data) > 0 {
      var n := CsiLength(data);
      var front := data[..n];
      ParamsEndOfPrefix(data, 2, n);
      assert CsiLength(front) == n && front[n..] == [] && front[2..n - 1] == data[2..n - 1];
    }
  }

  /** Feeding stopped at byte k, where a sequence starts that is not modelled; everything before it was fed. */
  predicate StoppedAt(t: Term, data: seq<Byte>, k: nat, u: Term) {
    k < |data| && data[k] == ESC && Feed(t, data[..k]) == Some(u) && Feed(u, data[k..]) == None
  }

  // --- What a sequence does to the cells --------------------------------------------------------

  /** The cell at a place of the screen; past the end of a row or of the rows it is blank. */
  function CellAt(t: Term, r: nat, c: nat): Cell {
    if r < |t.rows| && c < |t.rows[r]| then t.rows[r][c] else BLANK
  }

  /** What J and K erase: from the cursor to the end of the screen or all of it, and from the cursor right, left of it, or its row. */
  predicate Erases(t: Term, params: seq<Byte>, final: Byte, r: nat, c: nat) {
    var mode := Param(params, 0);
    || (final == 74 && (mode == 2 || r > t.row || (r == t.row && c >= t.col)))
    || (final == 75 && r == t.row && (if mode == 0 then c >= t.col else if mode == 1 then c < t.col else true))
  }

  lemma {:induction false} EraseLineCells(line: Row, col: nat, mode: nat, c: nat)
    ensures var after := EraseLine(line, col, mode);
            (if c < |after| then after[c] else BLANK)
            == if (if mode == 0 then c >= col else if mode == 1 then c < col else true) || c >= |line| then BLANK else line[c]
  {
  }

  /** A control sequence blanks the cells it erases and no others. */
  lemma {:induction false} CsiCells(t: Term, params: seq<Byte>, final: Byte, r: nat, c: nat)
    requires Csi(t, params, final).Some?
    ensures var u := Csi(t, params, final).value;
            CellAt(u, r, c) == if Erases(t, params, final, r, c) then BLANK else CellAt(t, r, c)
  {
    hide Param, EraseLine, Less1;
    if final == 75 {
      EraseLineCells(Lengthen(t.rows, t.row)[t.row], t.col, Param(params, 0), c);
    }
  }

  /** Each sequence moves the cursor, or erases, or sets the attribute, and leaves the rest. */
  lemma {:induction false} CsiChangesOneThing(t: Term, params: seq<Byte>, final: Byte)
    requires Csi(t, params, final).Some?
    ensures var u := Csi(t, params, final).value;
            && u.cols == t.cols
            && (final != 74 && final != 75 ==> u.rows == t.rows)
            && (final == 74 || final == 75 || final == 109 ==> u.row == t.row && u.col == t.col)
            && (final != 109 ==> u.attr == t.attr)
            && (final == 65 || final == 66 ==> u.col == t.col)
            && (final == 67 || final == 68 || final == 71 ==> u.row == t.row)
  {
    hide Param, EraseLine, Less1;
  }

  /** Down and then up by the same count is where the cursor was; so is right and then left, if the margin was not met. */
  lemma {:induction false} MovesUndo(t: Term, params: seq<Byte>)
    ensures var down := Csi(t, params, 66); down.Some? && Csi(down.value, params, 65) == Some(t)
    ensures var right := Csi(t, params, 67);
            var n := if Param(params, 0) > 0 then Param(params, 0) else 1;
            right.Some? && (t.col + n < t.cols ==> Csi(right.value, params, 68) == Some(t))
  {
    hide Param;
  }

  /** A character lands at the cursor, or at the start of the next row if the cursor is past the margin, and nowhere else. */
  lemma {:induction false} PutCells(t: Term, ch: Byte, r: nat, c: nat)
    ensures var u := Put(t, ch);
            var wraps := t.col >= t.cols;
            && u.row == (if wraps then t.row + 1 else t.row) && u.col == (if wraps then 1 else t.col + 1)
            && CellAt(u, r, c) == if r == u.row && c + 1 == u.col then Cell(ch, t.attr) else CellAt(t, r, c)
  {
  }

  // --- Redrawing a line --------------------------------------------------------------------------

  predicate Printable(b: Byte) {
    b != ESC && b != CR && b != LF && b != BS && b != BEL
  }

  predicate AllPrintable(s: seq<Byte>) {
    forall i :: 0 <= i < |s| ==> Printable(s[i])
  }

  function Cells(s: seq<Byte>, attr: seq<Byte>): Row {
    seq(|s|, i requires 0 <= i < |s| => Cell(s[i], attr))
  }

  /** The screen with its cursor's row replaced and the cursor at column col. */
  function WithRow(t: Term, line: Row, col: nat): Term
    requires t.row < |t.rows|
  {
    t.(rows := t.rows[t.row := line], col := col)
  }

  /** Typing over a row from the cursor: the text lands there, and what lies beyond it stays. */
  lemma {:induction false} TypeOver(t: Term, s: seq<Byte>)
    requires t.row < |t.rows| && t.col <= |t.rows[t.row]| && t.col + |s| <= t.cols && AllPrintable(s)
    ensures var line := t.rows[t.row];
            var end := t.col + |s|;
            Feed(t, s) == Some(WithRow(t, line[..t.col] + Cells(s, t.attr) + if end <= |line| then line[end..] else [], end))
    decreases |s|
  {
    var line := t.rows[t.row];
    if s == [] {
      assert line[..t.col] + Cells(s, t.attr) + line[t.col..] == line;
      assert t.rows[t.row := line] == t.rows;
    } else {
      assert Printable(s[0]);
      var u := Put(t, s[0]);
      var c := Cell(s[0], t.attr);
      var line' := Write(line, t.col, c);
      assert Blanks(0) == [] && line + [] == line;
      assert u == WithRow(t, line', t.col + 1);
      TypeOver(u, s[1..]);
      TypedRow(line, line', t.col, s, t.attr);
      var end := t.col + |s|;
      var row := line[..t.col] + Cells(s, t.attr) + if end <= |line| then line[end..] else [];
      assert u.rows[t.row := row] == t.rows[t.row := row];
      assert Feed(u, s[1..]) == Some(WithRow(u, row, end));
    }
  }

  lemma {:induction false} TypedRow(line: Row, line': Row, col: nat, s: seq<Byte>, attr: seq<Byte>)
    requires col <= |line| && s != [] && line' == Write(line, col, Cell(s[0], attr))
    ensures var end := col + |s|;
            && |line'| >= col + 1
            && line'[..col + 1] + Cells(s[1..], attr) + (if end <= |line'| then line'[end..] else [])
               == line[..col] + Cells(s, attr) + if end <= |line| then line[end..] else []
  {
    var end := col + |s|;
    assert Blanks(0) == [] && line + [] == line;
    assert line'[..col + 1] == line[..col] + [Cell(s[0], attr)];
    assert Cells(s, attr) == [Cell(s[0], attr)] + Cells(s[1..], attr);
    if end <= |line| {
      assert line'[end..] == line[end..];
    }
  }

  const ERASE_RIGHT: seq<Byte> := [27, 91, 75]

  /** What a line editor sends to show text: back to the margin, the text, erase the rest of the row. */
  function Redraw(text: seq<Byte>): seq<Byte> {
    [CR] + text + ERASE_RIGHT
  }

  lemma {:induction false} EraseRight(t: Term)
    requires t.row < |t.rows|
    ensures Feed(t, ERASE_RIGHT) == Some(t.(rows := t.rows[t.row := Take(t.rows[t.row], t.col)]))
  {
    var d := ERASE_RIGHT;
    assert ParamsEnd(d, 2) == 2;
    assert CsiLength(d) == 3 && d[2..2] == [] && d[3..] == [];
    assert Csi(t, [], 75) == Some(t.(rows := t.rows[t.row := Take(t.rows[t.row], t.col)]));
  }

  /** A redraw shows exactly its text, whatever the row held and wherever in it the cursor was. */
  lemma {:induction false} RedrawShowsText(t: Term, text: seq<Byte>)
    requires t.row < |t.rows| && |text| <= t.cols && AllPrintable(text)
    ensures Feed(t, Redraw(text)) == Some(WithRow(t, Cells(text, t.attr), |text|))
  {
    hide Feed, CsiLength;
    var home := t.(col := 0);
    ReturnHome(t);
    FeedSplits(t, [CR], text + ERASE_RIGHT);
    assert Redraw(text) == [CR] + (text + ERASE_RIGHT);
    TypeOver(home, text);
    FeedSplits(home, text, ERASE_RIGHT);
    var typed := Feed(home, text).value;
    EraseRight(typed);
    assert Take(typed.rows[t.row], |text|) == Cells(text, t.attr);
    assert typed.rows[t.row := Cells(text, t.attr)] == t.rows[t.row := Cells(text, t.attr)];
  }

  lemma {:induction false} ReturnHome(t: Term)
    ensures Feed(t, [CR]) == Some(t.(col := 0))
  {
    assert [CR][1..] == [];
  }

  /** One redraw after each key, as a whole-line editor does it. */
  function RedrawEachKey(shown: seq<Byte>, keys: seq<Byte>): seq<Byte>
    decreases |keys|
  {
    if keys == [] then [] else Redraw(shown + [keys[0]]) + RedrawEachKey(shown + [keys[0]], keys[1..])
  }

  /** The cursor's row shows text, and the cursor stands at its end. */
  predicate Shows(t: Term, text: seq<Byte>) {
    t.row < |t.rows| && t.rows[t.row] == Cells(text, t.attr) && t.col == |text|
  }

  lemma {:induction false} RedrawingKeys(t: Term, shown: seq<Byte>, keys: seq<Byte>)
    requires Shows(t, shown) && |shown| + |keys| <= t.cols && AllPrintable(shown + keys)
    ensures Feed(t, RedrawEachKey(shown, keys)) == Some(WithRow(t, Cells(shown + keys, t.attr), |shown + keys|))
    decreases |keys|
  {
    hide Feed, Cells;
    if keys == [] {
      assert shown + keys == shown && t.rows[t.row := t.rows[t.row]] == t.rows;
      FeedNothing(t);
    } else {
      var next := shown + [keys[0]];
      assert next + keys[1..] == shown + keys;
      assert AllPrintable(next) by {
        assert forall i :: 0 <= i < |next| ==> next[i] == (shown + keys)[i];
      }
      RedrawShowsText(t, next);
      var u := Feed(t, Redraw(next)).value;
      FeedSplits(t, Redraw(next), RedrawEachKey(next, keys[1..]));
      RedrawingKeys(u, next, keys[1..]);
      var all := Cells(shown + keys, t.attr);
      assert u.rows[t.row := all] == t.rows[t.row := all];
    }
  }

  lemma {:induction false} FeedNothing(t: Term)
    ensures Feed(t, []) == Some(t)
  {
  }

  /** Typing at the end of a row adds to it. */
  lemma {:induction false} TypeAtEnd(t: Term, shown: seq<Byte>, keys: seq<Byte>)
    requires Shows(t, shown) && |shown| + |keys| <= t.cols && AllPrintable(keys)
    ensures Feed(t, keys) == Some(WithRow(t, Cells(shown + keys, t.attr), |shown + keys|))
  {
    hide Feed, Cells;
    CellsAppend(shown, keys, t.attr);
    TypeOver(t, keys);
    RowEnds(t.rows[t.row], Cells(keys, t.attr), |keys|);
  }

  lemma {:induction false} RowEnds(line: Row, more: Row, n: nat)
    ensures line[..|line|] + more + (if |line| + n <= |line| then line[|line| + n..] else []) == line + more
  {
  }

  /** Redraw equivalence: keys that are echoed as typed, and keys that each redraw the whole row, leave the same screen. */
  lemma {:induction false} TypingEqualsRedrawing(t: Term, shown: seq<Byte>, keys: seq<Byte>)
    requires Shows(t, shown) && |shown| + |keys| <= t.cols && AllPrintable(shown + keys)
    ensures Feed(t, keys) == Feed(t, RedrawEachKey(shown, keys))
    ensures Feed(t, keys).Some? && Shows(Feed(t, keys).value, shown + keys)
  {
    hide Feed, Cells, RedrawEachKey;
    RedrawingKeys(t, shown, keys);
    PrintableTail(shown, keys);
    TypeAtEnd(t, shown, keys);
  }

  lemma {:induction false} PrintableTail(a: seq<Byte>, b: seq<Byte>)
    requires AllPrintable(a + b)
    ensures AllPrintable(b)
  {
    assert forall i :: 0 <= i < |b| ==> b[i] == (a + b)[|a| + i];
  }

  lemma {:induction false} CellsAppend(a: seq<Byte>, b: seq<Byte>, attr: seq<Byte>)
    ensures Cells(a, attr) + Cells(b, attr) == Cells(a + b, attr) && |Cells(a, attr)| == |a|
  {
  }

  // --- The screen as the source keeps it ------------------------------------------------------------

  class ScreenBuffer {
    const cols: Width
    var rows: seq<Row>
    var row: nat
    var col: nat
    var attr: seq<Byte>

    function View(): Term
      reads this
    {
      Term(cols, rows, row, col, attr)
    }

    constructor (cols: Width)
      ensures View() == Term(cols, [[]], 0, 0, [])
    {
      this.cols, rows, row, col, attr := cols, [[]], 0, 0, [];
    }

    /** _line */
    method Line()
      modifies this`rows
      ensures rows == Lengthen(old(rows), row)
    {
      while |rows| <= row
        invariant old(rows) <= rows && (|rows| <= row + 1 || rows == old(rows))
        invariant forall i :: |old(rows)| <= i < |rows| ==> rows[i] == []
        decreases row + 1 - |rows|
      {
        rows := rows + [[]];
      }
      assert rows == Lengthen(old(rows), row);
    }

    /** put */
    method PutChar(ch: Byte)
      modifies this
      ensures View() == Put(old(View()), ch)
    {
      if col >= cols {
        row, col := row + 1, 0;
      }
      Line();
      var line := rows[row];
      ghost var was := line;
      while |line| <= col
        invariant |was| <= |line| <= col + 1 || line == was
        invariant was <= line && forall i :: |was| <= i < |line| ==> line[i] == BLANK
        decreases col + 1 - |line|
      {
        line := line + [BLANK];
      }
      line := line[col := Cell(ch, attr)];
      assert line == Write(was, col, Cell(ch, attr));
      rows := rows[row := line];
      col := col + 1;
    }

    /** csi; false where the source raises. */
    method DoCsi(params: seq<Byte>, final: Byte) returns (ok: bool)
      modifies this
      ensures ok <==> Csi(old(View()), params, final).Some?
      ensures ok ==> Csi(old(View()), params, final) == Some(View())
      ensures !ok ==> View() == old(View())
    {
      hide Param, EraseLine, Less1;
      var p0, p1 := Param(params, 0), Param(params, 1);
      var n := if p0 > 0 then p0 else 1;
      ok := true;
      if final == 65 {
        row := if row < n then 0 else row - n;
      } else if final == 66 {
        row := row + n;
      } else if final == 67 {
        col := if cols - 1 < col + n then cols - 1 else col + n;
      } else if final == 68 {
        col := if col < n then 0 else col - n;
      } else if final == 71 {
        col := Less1(p0);
      } else if final == 72 {
        row, col := Less1(p0), Less1(p1);
      } else if final == 74 {
        if p0 == 2 {
          rows := seq(|rows|, _ => []);
        } else {
          Line();
          rows := rows[row := Take(rows[row], col)];
          rows := rows[..row + 1];
          assert rows == Lengthen(old(rows), row)[..row] + [Take(Lengthen(old(rows), row)[row], col)];
        }
      } else if final == 75 {
        Line();
        rows := rows[row := EraseLine(rows[row], col, p0)];
      } else if final == 109 {
        attr := if params == [] || params == [48] then [] else params;
      } else {
        ok := false;
      }
    }

    /** feed; false where the source raises, with the screen as it was before the sequence that is not modelled. */
    method FeedBytes(data: seq<Byte>) returns (ok: bool)
      modifies this
      ensures ok <==> Feed(old(View()), data).Some?
      ensures ok ==> Feed(old(View()), data) == Some(View())
      ensures !ok ==> exists k :: StoppedAt(old(View()), data, k, View())
    {
      hide Csi, Put, CsiLength;
      ghost var start := View();
      var i := 0;
      assert data[..0] == [] && data[0..] == data;
      while i < |data|
        invariant 0 <= i <= |data| && Feed(start, data[..i]) == Some(View())
        invariant Feed(View(), data[i..]) == Feed(start, data)
      {
        var b := data[i];
        ghost var here := View();
        FeedFirst(here, data[i..]);
        if b == ESC {
          var n := CsiLength(data[i..]);
          if n == 0 {
            assert StoppedAt(start, data, i, View());
            return false;
          }
          assert data[i..][2..n - 1] == data[i + 2..i + n - 1] && data[i..][n..] == data[i + n..];
          var modelled := DoCsi(data[i + 2..i + n - 1], data[i + n - 1]);
          if !modelled {
            assert StoppedAt(start, data, i, View());
            return false;
          }
          FedSoFar(start, data, i, n);
          i := i + n;
          continue;
        }
        assert data[i..][1..] == data[i + 1..];
        if b == CR {
          col := 0;
        } else if b == LF {
          row, col := row + 1, 0;
        } else if b == BS {
          col := if col > 0 then col - 1 else 0;
        } else if b != BEL {
          PutChar(b);
        }
        FedSoFar(start, data, i, 1);
        i := i + 1;
      }
      assert data[..|data|] == data;
      return true;
    }
  }

  /** What was fed, then the next n bytes. */
  lemma {:induction false} FedSoFar(t: Term, data: seq<Byte>, i: nat, n: nat)
    requires i + n <= |data| && Feed(t, data[..i]).Some?
    ensures Feed(t, data[..i + n]) == Feed(Feed(t, data[..i]).value, data[i..][..n])
  {
    assert data[..i + n] == data[..i] + data[i..][..n];
    FeedSplits(t, data[..i], data[i..][..n]);
  }
}
