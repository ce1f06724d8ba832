/** Bytes and the decimal text that RESP headers, integers and commands use. */
module Bytes {
  type Byte = x: int | 0 <= x < 256

  const CR: Byte := 13
  const LF: Byte := 10
  const CRLF: seq<Byte> := [13, 10]
  const PLUS: Byte := 43
  const MINUS: Byte := 45
  const ZERO: Byte := 48

  // Go's int and int64 on a 64-bit platform.
  const MAX_INT := 0x7FFF_FFFF_FFFF_FFFF
  const MIN_INT := -0x8000_0000_0000_0000

  /** No Go slice has more bytes: an int counts them, and the runtime's limit on one allocation is far below that. */
  const MAX_SLICE := MAX_INT - 2

  /** The value that a 64-bit int holds after arithmetic. */
  function Wrap(x: int): (r: int)
    ensures MIN_INT <= r <= MAX_INT && (r - x) % 0x1_0000_0000_0000_0000 == 0
    ensures MIN_INT <= x <= MAX_INT ==> r == x
  {
    var m := x % 0x1_0000_0000_0000_0000;
    if m > MAX_INT then m - 0x1_0000_0000_0000_0000 else m
  }

  datatype Option<+T> = None | Some(value: T)

  predicate IsDigit(b: Byte) {
    48 <= b <= 57
  }

  predicate AllDigits(s: seq<Byte>) {
    forall i :: 0 <= i < |s| ==> IsDigit(s[i])
  }

  /** The number that a run of decimal digits denotes. */
  function DecimalValue(s: seq<Byte>): nat
    requires AllDigits(s)
  {
    if s == [] then 0
    else DecimalValue(s[..|s| - 1]) * 10 + (s[|s| - 1] - 48)
  }

  /** strconv.ParseInt(s, 10, 64), and so strconv.Atoi where int has 64 bits. */
  function ParseInt64(s: seq<Byte>): (r: Option<int>)
    ensures r.Some? ==> MIN_INT <= r.value <= MAX_INT
  {
    if s == [] then None
    else
      var body := if s[0] == PLUS || s[0] == MINUS then s[1..] else s;
      if body == [] || !AllDigits(body) then None
      else
        var n: int := DecimalValue(body);
        var signed := if s[0] == MINUS then -n else n;
        if MIN_INT <= signed <= MAX_INT then Some(signed) else None
  }

  function Digits(n: nat): seq<Byte> {
    if n < 10 then [48 + n] else Digits(n / 10) + [48 + n % 10]
  }

  /** strconv.AppendInt(_, n, 10): the decimal text of n. */
  function PrintInt(n: int): seq<Byte> {
    if n < 0 then [MINUS] + Digits(-n) else Digits(n)
  }

  lemma {:induction false} DigitsParse(n: nat)
    ensures Digits(n) != [] && AllDigits(Digits(n)) && DecimalValue(Digits(n)) == n
  {
    if n >= 10 {
      DigitsParse(n / 10);
      var s := Digits(n);
      assert s[..|s| - 1] == Digits(n / 10);
    } else {
      assert Digits(n)[..0] == [];
    }
  }

  /** Decimal text reads back as the number it was printed from. */
  lemma {:induction false} PrintIntParses(n: int)
    requires MIN_INT <= n <= MAX_INT
    ensures ParseInt64(PrintInt(n)) == Some(n)
  {
    var m := if n < 0 then -n else n;
    DigitsParse(m);
    assert IsDigit(Digits(m)[0]);
    if n < 0 {
      assert PrintInt(n)[1..] == Digits(m);
    }
  }

  lemma {:induction false} PrintIntHasNoCr(n: int)
    ensures CR !in PrintInt(n)
  {
    DigitsParse(if n < 0 then -n else n);
  }

  // --- The texts that spell a number ---------------------------------------------------

  function Zeros(k: nat): seq<Byte> {
    seq(k, _ => ZERO)
  }

  lemma {:induction false} ZerosAreZero(k: nat)
    ensures AllDigits(Zeros(k)) && DecimalValue(Zeros(k)) == 0
  {
    if k > 0 {
      ZerosAreZero(k - 1);
      assert Zeros(k)[..k - 1] == Zeros(k - 1);
    }
  }

  lemma {:induction false} PaddedValue(k: nat, m: nat)
    ensures AllDigits(Zeros(k) + Digits(m)) && DecimalValue(Zeros(k) + Digits(m)) == m
  {
    var s := Zeros(k) + Digits(m);
    DigitsParse(m);
    ZerosAreZero(k);
    if m < 10 {
      assert s[..|s| - 1] == Zeros(k);
    } else {
      PaddedValue(k, m / 10);
      assert s[..|s| - 1] == Zeros(k) + Digits(m / 10);
    }
  }

  lemma {:induction false} DigitsArePadded(s: seq<Byte>) returns (k: nat)
    requires s != [] && AllDigits(s)
    ensures s == Zeros(k) + Digits(DecimalValue(s))
  {
    var body, d := s[..|s| - 1], s[|s| - 1] - 48;
    if body == [] {
      k := 0;
    } else {
      var v := DecimalValue(body);
      var j := DigitsArePadded(body);
      assert DecimalValue(s) / 10 == v && DecimalValue(s) % 10 == d;
      k := if v > 0 then j else j + 1;
      assert s == body + [s[|s| - 1]];
      if v == 0 {
        assert Zeros(j) + [ZERO] == Zeros(k);
      }
    }
  }

  /** s is a sign, some zeros and the digits of n. */
  ghost predicate Spells(s: seq<Byte>, sign: seq<Byte>, zeros: nat, n: int) {
    && (sign == [] || sign == [PLUS] || sign == [MINUS])
    && (n < 0 ==> sign == [MINUS]) && (n > 0 ==> sign != [MINUS])
    && s == sign + (Zeros(zeros) + Digits(if n < 0 then -n else n))
  }

  lemma {:induction false} ParsedIsSpelled(s: seq<Byte>, n: int)
    requires ParseInt64(s) == Some(n)
    ensures exists sign, zeros :: Spells(s, sign, zeros, n)
  {
    hide Digits, Zeros;
    var sign := if s[0] == PLUS || s[0] == MINUS then [s[0]] else [];
    var body := s[|sign|..];
    assert s == sign + body;
    var zeros := DigitsArePadded(body);
    assert Spells(s, sign, zeros, n);
  }

  lemma {:induction false} SpelledIsParsed(s: seq<Byte>, sign: seq<Byte>, zeros: nat, n: int)
    requires MIN_INT <= n <= MAX_INT && Spells(s, sign, zeros, n)
    ensures ParseInt64(s) == Some(n)
  {
    hide Digits, Zeros, DecimalValue;
    var m := if n < 0 then -n else n;
    var body := Zeros(zeros) + Digits(m);
    PaddedValue(zeros, m);
    DigitsParse(m);
    assert body != [] && IsDigit(body[0]);
    assert s[|sign|..] == body;
  }

  /** A text parses as n exactly when n fits 64 bits and the text is a sign, some zeros and n's digits. */
  lemma {:induction false} ParsesExactlyItsSpellings(s: seq<Byte>, n: int)
    ensures ParseInt64(s) == Some(n) <==> MIN_INT <= n <= MAX_INT && exists sign, zeros :: Spells(s, sign, zeros, n)
  {
    hide Spells;
    if ParseInt64(s) == Some(n) {
      ParsedIsSpelled(s, n);
    }
    if MIN_INT <= n <= MAX_INT && exists sign, zeros :: Spells(s, sign, zeros, n) {
      var sign, zeros :| Spells(s, sign, zeros, n);
      SpelledIsParsed(s, sign, zeros, n);
    }
  }
}
