/** The parts of Go's `strconv` that both packages call: `ParseInt(s, 10,
    bitSize)` and `ParseBool(s)`, given as explicit definitions, with
    `FormatInt` and `FormatBool` as their inverses. Syntax and range errors
    are both reported as `Unparsable`. */
module Strconv {
  import opened Results
  import opened PathStrings

  /** The `bitSize` argument: 8, 16, 32, 64, or 0 for the platform's `int`,
      taken here as 64 bits. */
  datatype Width = W8 | W16 | W32 | W64 | WNative

  function Bits(w: Width): nat {
    match w
    case W8 => 8
    case W16 => 16
    case W32 => 32
    case W64 => 64
    case WNative => 64
  }

  function Pow2(n: nat): (r: nat)
    ensures r >= 1
  {
    if n == 0 then 1 else 2 * Pow2(n - 1)
  }

  lemma {:induction false} Pow2Add(a: nat, b: nat)
    ensures Pow2(a + b) == Pow2(a) * Pow2(b)
    decreases a
  {
    if a > 0 {
      Pow2Add(a - 1, b);
    }
  }

  /** The signed two's-complement range of the width. */
  predicate InRange(v: int, w: Width) {
    -(Pow2(Bits(w) - 1) as int) <= v < Pow2(Bits(w) - 1)
  }

  /** The signed ranges of Go's `int8`, `int16`, `int32` and `int64`. */
  lemma InRangeBounds(v: int, w: Width)
    ensures w == W8 ==> (InRange(v, w) <==> -0x80 <= v < 0x80)
    ensures w == W16 ==> (InRange(v, w) <==> -0x8000 <= v < 0x8000)
    ensures w == W32 ==> (InRange(v, w) <==> -0x8000_0000 <= v < 0x8000_0000)
    ensures w == W64 || w == WNative ==>
      (InRange(v, w) <==> -0x8000_0000_0000_0000 <= v < 0x8000_0000_0000_0000)
  {
    Pow2Values();
  }

  lemma Pow2Values()
    ensures Pow2(7) == 0x80 && Pow2(15) == 0x8000
    ensures Pow2(31) == 0x8000_0000 && Pow2(63) == 0x8000_0000_0000_0000
  {
    assert Pow2(8) == 0x100;
    Pow2Add(8, 7);
    assert Pow2(16) == 0x1_0000;
    Pow2Add(16, 15);
    Pow2Add(32, 31);
    Pow2Add(16, 16);
  }

  function DigitValue(c: char): nat
    requires IsDigit(c)
  {
    c as int - '0' as int
  }

  /** The value of a string of decimal digits, most significant first. */
  function DecimalValue(s: string): nat
    requires AllDigits(s)
    decreases |s|
  {
    if s == [] then 0 else 10 * DecimalValue(s[..|s| - 1]) + DigitValue(s[|s| - 1])
  }

  /** `strconv.ParseInt(s, 10, bitSize)`: an optional sign, then at least one
      decimal digit and nothing else; the value must fit the signed width. */
  function ParseInt(s: string, w: Width): (r: Result<int>)
    ensures r.Ok? ==> InRange(r.value, w)
    ensures r.Err? ==> r.error == Unparsable
    ensures r.Ok? ==> s != [] && AllDigits(if s[0] == '-' || s[0] == '+' then s[1..] else s)
  {
    var negative := s != [] && s[0] == '-';
    var digits := if s != [] && (s[0] == '-' || s[0] == '+') then s[1..] else s;
    if digits == [] || !AllDigits(digits) then Err(Unparsable)
    else
      var v: int := if negative then -(DecimalValue(digits) as int) else DecimalValue(digits);
      if InRange(v, w) then Ok(v) else Err(Unparsable)
  }

  function DigitChar(d: nat): char
    requires d < 10
  {
    ('0' as int + d) as char
  }

  /** The shortest decimal spelling of `n`. */
  function Digits(n: nat): string
    decreases n
  {
    if n < 10 then [DigitChar(n)] else Digits(n / 10) + [DigitChar(n % 10)]
  }

  /** `strconv.FormatInt(v, 10)`. */
  function FormatInt(v: int): string {
    if v < 0 then "-" + Digits(-v) else Digits(v)
  }

  lemma {:induction false} DigitsValue(n: nat)
    ensures |Digits(n)| >= 1 && AllDigits(Digits(n))
    ensures DecimalValue(Digits(n)) == n
    decreases n
  {
    if n >= 10 {
      DigitsValue(n / 10);
      var d := Digits(n);
      assert d[..|d| - 1] == Digits(n / 10);
    }
  }

  /** The decimal spelling of an integer has an optional minus sign and
      then only digits. */
  lemma FormatIntShape(v: int)
    ensures |FormatInt(v)| >= 1
    ensures FormatInt(v)[0] == '-' || IsDigit(FormatInt(v)[0])
    ensures AllDigits(FormatInt(v)[1..])
  {
    DigitsValue(if v < 0 then -v else v);
  }

  /** Parsing the decimal spelling of an in-range value gives it back. */
  lemma ParseFormatInt(v: int, w: Width)
    requires InRange(v, w)
    ensures ParseInt(FormatInt(v), w) == Ok(v)
  {
    var n := if v < 0 then -v else v;
    DigitsValue(n);
    if v < 0 {
      assert FormatInt(v)[1..] == Digits(n);
    }
  }

  /** A value outside the width is refused even when correctly spelled. */
  lemma ParseFormatIntOutOfRange(v: int, w: Width)
    requires !InRange(v, w)
    ensures ParseInt(FormatInt(v), w) == Err(Unparsable)
  {
    var n := if v < 0 then -v else v;
    DigitsValue(n);
    if v < 0 {
      assert FormatInt(v)[1..] == Digits(n);
    }
  }

  const TrueTokens: set<string> := {"1", "t", "T", "TRUE", "true", "True"}
  const FalseTokens: set<string> := {"0", "f", "F", "FALSE", "false", "False"}

  /** `strconv.ParseBool(s)`: a fixed table of accepted spellings. */
  function ParseBool(s: string): (r: Result<bool>)
    ensures r.Err? ==> r.error == Unparsable
  {
    if s in TrueTokens then Ok(true)
    else if s in FalseTokens then Ok(false)
    else Err(Unparsable)
  }

  /** `strconv.FormatBool(b)`. */
  function FormatBool(b: bool): string {
    if b then "true" else "false"
  }

  lemma ParseFormatBool(b: bool)
    ensures ParseBool(FormatBool(b)) == Ok(b)
  {
  }

  /** The outcome of `strconv.ParseFloat(s, bitSize)`, whose conversion is a
      parameter of the float accessors returning the value or nothing: its
      only failure is a `*NumError`, reported as `Unparsable`. */
  function FloatVerdict(o: Option<real>): (r: Result<real>)
    ensures r.Ok? <==> o.Some?
    ensures r.Ok? ==> r.value == o.value
    ensures r.Err? ==> r.error == Unparsable
  {
    match o
    case Some(v) => Ok(v)
    case None => Err(Unparsable)
  }
}
