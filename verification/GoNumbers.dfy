/** strconv.Itoa and strconv.Atoi for 64-bit ints, with Atoi's two kinds of failure. */
module GoNumbers {
  import opened Basics

  /** What strconv.Atoi returns. Its caller may keep the number that comes with an
      error: 0 for bad syntax, the nearest bound for a number out of range. */
  datatype Parsed = Number(n: Int64) | BadSyntax | OutOfRange(nearest: Int64)

  datatype Unsigned = Digits(n: nat) | NoDigits | TooBig

  const MAX_UINT64: nat := 0xFFFF_FFFF_FFFF_FFFF

  predicate IsDigit(c: char) {
    '0' <= c <= '9'
  }

  /** strconv.ParseUint in base 10: left to right, so a number that has already grown
      past 64 bits is reported before a bad character further on. */
  function ParseUint(s: string, acc: nat): Unsigned {
    if s == "" then Digits(acc)
    else if !IsDigit(s[0]) then NoDigits
    else
      var next := acc * 10 + (s[0] as int - '0' as int);
      if next > MAX_UINT64 then TooBig else ParseUint(s[1..], next)
  }

  function Atoi(s: string): Parsed {
    var negative := s != "" && s[0] == '-';
    var body := if s != "" && (s[0] == '-' || s[0] == '+') then s[1..] else s;
    if body == "" then BadSyntax
    else
      match ParseUint(body, 0)
      case NoDigits => BadSyntax
      case TooBig => OutOfRange(if negative then MIN_INT else MAX_INT)
      case Digits(n) =>
        if negative then (if n > -MIN_INT then OutOfRange(MIN_INT) else Number(0 - n))
        else if n > MAX_INT then OutOfRange(MAX_INT) else Number(n)
  }

  /** The number Atoi hands back when its error is ignored. */
  function AtoiOrNearest(s: string): Int64 {
    match Atoi(s)
    case Number(n) => n
    case BadSyntax => 0
    case OutOfRange(n) => n
  }

  function Digit(d: int): char
    requires 0 <= d < 10
  {
    ('0' as int + d) as char
  }

  function Decimal(n: nat): string {
    if n < 10 then [Digit(n)] else Decimal(n / 10) + [Digit(n % 10)]
  }

  function Abs(n: int): nat {
    if n < 0 then -n else n
  }

  function Itoa(n: Int64): string {
    if n < 0 then "-" + Decimal(Abs(n)) else Decimal(n)
  }

  lemma {:induction false} ParseUintConcat(a: string, b: string, acc: nat)
    ensures ParseUint(a + b, acc) ==
            match ParseUint(a, acc) case Digits(n) => ParseUint(b, n) case other => other
  {
    if a == "" {
      assert a + b == b;
    } else {
      assert (a + b)[1..] == a[1..] + b;
      if IsDigit(a[0]) {
        ParseUintConcat(a[1..], b, acc * 10 + (a[0] as int - '0' as int));
      }
    }
  }

  lemma {:induction false} ParseDecimal(n: nat)
    requires n <= MAX_UINT64
    ensures ParseUint(Decimal(n), 0) == Digits(n)
  {
    if n >= 10 {
      ParseDecimal(n / 10);
      var last := [Digit(n % 10)];
      ParseUintConcat(Decimal(n / 10), last, 0);
      assert last[1..] == "";
    } else {
      assert Decimal(n)[1..] == "";
    }
  }

  lemma {:induction false} DecimalChars(n: nat)
    ensures Decimal(n) != "" && forall c | c in Decimal(n) :: IsDigit(c)
  {
    if n >= 10 {
      DecimalChars(n / 10);
    }
  }

  lemma ItoaChars(n: Int64)
    ensures Itoa(n) != "" && forall c | c in Itoa(n) :: IsDigit(c) || c == '-'
  {
    DecimalChars(Abs(n));
  }

  function DigitOf(c: char): nat
    requires IsDigit(c)
  {
    c as int - '0' as int
  }

  /** The number that a string of digits means. */
  function DigitsValue(s: string): nat
    requires forall c | c in s :: IsDigit(c)
  {
    if s == "" then 0
    else
      var last := s[|s| - 1];
      assert last in s;
      10 * DigitsValue(s[..|s| - 1]) + DigitOf(last)
  }

  lemma {:induction false} ParseUintOfDigits(s: string)
    requires forall c | c in s :: IsDigit(c)
    ensures ParseUint(s, 0) == if DigitsValue(s) <= MAX_UINT64 then Digits(DigitsValue(s)) else TooBig
  {
    if s != "" {
      var front, last := s[..|s| - 1], [s[|s| - 1]];
      assert s == front + last && last[1..] == "";
      ParseUintOfDigits(front);
      ParseUintConcat(front, last, 0);
    }
  }

  /** A string of digits is read as the number it means, with a sign or without, as far as that fits an int; past that
      the nearest bound is reported. */
  lemma AtoiOfDigits(s: string)
    requires s != "" && forall c | c in s :: IsDigit(c)
    ensures var n := DigitsValue(s);
            && Atoi(s) == (if n <= 0x7FFF_FFFF_FFFF_FFFF then Number(n) else OutOfRange(0x7FFF_FFFF_FFFF_FFFF))
            && Atoi("+" + s) == Atoi(s)
            && Atoi("-" + s) ==
               (if n <= 0x8000_0000_0000_0000 then Number(0 - n) else OutOfRange(-0x8000_0000_0000_0000))
  {
    ParseUintOfDigits(s);
    hide ParseUint, DigitsValue;
    assert s[0] in s;
    assert ("+" + s)[1..] == s && ("-" + s)[1..] == s;
  }

  lemma {:induction false} ParsedHasDigits(s: string, acc: nat)
    requires ParseUint(s, acc).Digits?
    ensures forall c | c in s :: IsDigit(c)
  {
    if s != "" {
      ParsedHasDigits(s[1..], acc * 10 + (s[0] as int - '0' as int));
      assert s == [s[0]] + s[1..];
    }
  }

  /** Nothing else is read as a number. */
  lemma OnlyDigitsAreNumbers(s: string)
    requires Atoi(s).Number?
    ensures var body := if s != "" && (s[0] == '-' || s[0] == '+') then s[1..] else s;
            body != "" && forall c | c in body :: IsDigit(c)
  {
    var body := if s != "" && (s[0] == '-' || s[0] == '+') then s[1..] else s;
    ParsedHasDigits(body, 0);
  }

  /** Parsing undoes printing for every int, the two bounds included. */
  lemma AtoiItoa(n: Int64)
    ensures Atoi(Itoa(n)) == Number(n)
  {
    var m := Abs(n);
    ParseDecimal(m);
    DecimalChars(m);
    if n < 0 {
      assert Itoa(n)[1..] == Decimal(m);
    }
  }
}
