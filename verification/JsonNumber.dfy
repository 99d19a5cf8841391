/** Printing and reading of numbers: the digit loop of the writers and the guarded 32-bit
    accumulation of the reader. */
module JsonNumber {
  import opened JsonValue

  predicate IsDigit(c: char) {
    '0' <= c <= '9'
  }

  function DigitValue(c: char): (d: nat)
    requires IsDigit(c)
    ensures d < 10
  {
    c as int - '0' as int
  }

  function DigitChar(d: nat): (c: char)
    requires d < 10
    ensures IsDigit(c) && DigitValue(c) == d
  {
    ('0' as int + d) as char
  }

  predicate AllDigits(s: string) {
    forall i :: 0 <= i < |s| ==> IsDigit(s[i])
  }

  // The decimal numeral of n, without leading zeros.
  function Decimal(n: nat): (s: string)
    ensures s != "" && AllDigits(s)
  {
    if n < 10 then [DigitChar(n)] else Decimal(n / 10) + [DigitChar(n % 10)]
  }

  // The numeral of an integer, signed when negative.
  function IntText(n: int): string {
    if n < 0 then "-" + Decimal(-n) else Decimal(n)
  }

  // Positional value of the digits of s read after a prefix worth v.
  function Horner(v: nat, s: string): nat
    requires AllDigits(s)
    decreases s
  {
    if s == "" then v else Horner(v * 10 + DigitValue(s[0]), s[1..])
  }

  lemma {:induction false} HornerAppend(v: nat, s: string, c: char)
    requires AllDigits(s) && IsDigit(c)
    ensures Horner(v, s + [c]) == Horner(v, s) * 10 + DigitValue(c)
    decreases s
  {
    if s == "" {
      assert s + [c] == [c];
    } else {
      assert (s + [c])[1..] == s[1..] + [c];
      HornerAppend(v * 10 + DigitValue(s[0]), s[1..], c);
    }
  }

  // Reading a printed numeral gives the number back.
  lemma {:induction false} HornerOfDecimal(n: nat)
    ensures Horner(0, Decimal(n)) == n
  {
    if n < 10 {
      assert Decimal(n)[1..] == "";
    } else {
      HornerOfDecimal(n / 10);
      HornerAppend(0, Decimal(n / 10), DigitChar(n % 10));
    }
  }

  // ---------------------------------------------------------------- the printing loop

  const BUFFER_SIZE: nat := 32

  lemma {:induction false} DecimalLength(n: nat, digits: nat, bound: nat)
    requires digits > 0 && bound == Power10(digits) && n < bound
    ensures |Decimal(n)| <= digits
  {
    if n >= 10 {
      DecimalLength(n / 10, digits - 1, bound / 10);
    }
  }

  function Power10(k: nat): (p: nat)
    ensures p >= 1
  {
    if k == 0 then 1 else 10 * Power10(k - 1)
  }

  lemma UIntFitsTenDigits(n: nat)
    requires n <= MAX_UINT
    ensures |Decimal(n)| <= 10
  {
    assert Power10(5) == 100000;
    assert Power10(10) == 10000000000 by {
      assert Power10(6) == 1000000;
      assert Power10(8) == 100000000;
    }
    DecimalLength(n, 10, 10000000000);
  }

  // Writes the digits backwards from the end of the buffer, least significant first.
  method UIntToString(value: nat, buffer: array<char>) returns (current: nat)
    requires value <= MAX_UINT && buffer.Length == BUFFER_SIZE
    modifies buffer
    ensures 0 < current <= BUFFER_SIZE - 1
    ensures buffer[current..BUFFER_SIZE - 1] == Decimal(value) && buffer[BUFFER_SIZE - 1] == '\0'
  {
    UIntFitsTenDigits(value);
    current := BUFFER_SIZE - 1;
    buffer[current] := '\0';
    current := current - 1;
    buffer[current] := DigitChar(value % 10);
    var rest: nat := value / 10;
    while rest != 0
      invariant 0 < current <= BUFFER_SIZE - 2
      invariant buffer[BUFFER_SIZE - 1] == '\0'
      invariant Decimal(value) ==
        (if rest == 0 then "" else Decimal(rest)) + buffer[current..BUFFER_SIZE - 1]
    {
      ghost var tail := buffer[current..BUFFER_SIZE - 1];
      current := current - 1;
      buffer[current] := DigitChar(rest % 10);
      assert buffer[current..BUFFER_SIZE - 1] == [DigitChar(rest % 10)] + tail;
      rest := rest / 10;
    }
  }

  // Negation on 32 bits: the least integer is its own opposite.
  function Negate32(i: int): (n: int)
    requires MIN_INT <= i <= MAX_INT
    ensures MIN_INT <= n <= MAX_INT
  {
    if i == MIN_INT then MIN_INT else -i
  }

  function ToUInt(i: int): (u: nat)
    requires MIN_INT <= i <= MAX_INT
    ensures u <= MAX_UINT
  {
    if i < 0 then i + MAX_UINT + 1 else i
  }

  method IntValueToString(i: int) returns (text: string)
    requires MIN_INT <= i <= MAX_INT
    ensures text == IntText(i)
  {
    var buffer := new char[BUFFER_SIZE];
    var value := i;
    var isNegative := value < 0;
    if isNegative {
      value := Negate32(value);
    }
    var current := UIntToString(ToUInt(value), buffer);
    if isNegative {
      ghost var digits := buffer[current..BUFFER_SIZE - 1];
      current := current - 1;
      buffer[current] := '-';
      assert buffer[current..BUFFER_SIZE - 1] == "-" + digits;
    }
    text := buffer[current..BUFFER_SIZE - 1];
  }

  method UIntValueToString(u: nat) returns (text: string)
    requires u <= MAX_UINT
    ensures text == IntText(u)
  {
    var buffer := new char[BUFFER_SIZE];
    var current := UIntToString(u, buffer);
    text := buffer[current..BUFFER_SIZE - 1];
  }

  // ---------------------------------------------------------------- reading

  predicate IsNumberChar(c: char) {
    IsDigit(c) || c in ".eE+-"
  }

  // What the lexer takes for a number.
  predicate IsNumberText(t: string) {
    t != "" && (IsDigit(t[0]) || t[0] == '-') && forall i :: 0 <= i < |t| ==> IsNumberChar(t[i])
  }

  // The text needs a floating-point reading whatever its size.
  predicate LooksReal(t: string) {
    exists i :: 0 <= i < |t| && (t[i] in ".eE+" || (t[i] == '-' && i > 0))
  }

  predicate IsNegative(t: string) {
    t != "" && t[0] == '-'
  }

  function Unsigned(t: string): string {
    if IsNegative(t) then t[1..] else t
  }

  // A tenth of the largest magnitude the sign allows; a digit is only accepted while
  // the value so far is below it.
  function Threshold(negative: bool): (t: nat)
    ensures 0 < t && t * 10 <= MAX_UINT
  {
    (if negative then -MIN_INT else MAX_UINT) / 10
  }

  // The accumulator is a 32-bit variable.
  type UInt32 = n: nat | n <= MAX_UINT

  datatype Digits = NotDigits | TooLarge | Exact(n: UInt32)

  function ScanDigits(s: string, value: UInt32, threshold: nat): Digits
    requires threshold * 10 <= MAX_UINT
  {
    if s == "" then Exact(value)
    else if !IsDigit(s[0]) then NotDigits
    else if value >= threshold then TooLarge
    else ScanDigits(s[1..], value * 10 + DigitValue(s[0]), threshold)
  }

  // `sscanf` on the whole token: a foreign function, passed in.
  type RealScanner = string -> Option<real>

  function DecodeReal(t: string, scan: RealScanner): Option<Value> {
    match scan(t)
    case Some(r) => Some(Real(r))
    case None => None
  }

  function IntegerValue(negative: bool, n: nat): Value {
    if negative then Int(0 - n) else if n <= MAX_INT then Int(n) else UInt(n)
  }

  // None stands for "is not a number".
  function DecodeNumber(t: string, scan: RealScanner): Option<Value> {
    if LooksReal(t) then DecodeReal(t, scan)
    else
      match ScanDigits(Unsigned(t), 0, Threshold(IsNegative(t)))
      case NotDigits => None
      case TooLarge => DecodeReal(t, scan)
      case Exact(n) => Some(IntegerValue(IsNegative(t), n))
  }

  // The guard is conservative: it also turns away the last few magnitudes that would fit.
  lemma {:induction false} ScanDigitsExact(s: string, value: UInt32, threshold: nat)
    requires AllDigits(s) && 0 < threshold && value < threshold * 10 <= MAX_UINT
    ensures ScanDigits(s, value, threshold) ==
      (if Horner(value, s) < threshold * 10 then Exact(Horner(value, s)) else TooLarge)
  {
    if s != "" {
      if value >= threshold {
        HornerGrows(value * 10 + DigitValue(s[0]), s[1..]);
      } else {
        ScanDigitsExact(s[1..], value * 10 + DigitValue(s[0]), threshold);
      }
    }
  }

  // The loop can be stopped and resumed after any digit, and what it has accumulated by
  // then fits 32 bits: no step of it overflows.
  lemma {:induction false} AccumulatorNeverOverflows(s: string, value: UInt32, threshold: nat, k: nat)
    requires k <= |s| && value < threshold * 10 <= MAX_UINT
    ensures ScanDigits(s, value, threshold) ==
      match ScanDigits(s[..k], value, threshold)
      case Exact(v) => ScanDigits(s[k..], v, threshold)
      case failed => failed
    ensures var d := ScanDigits(s[..k], value, threshold);
      d.Exact? ==> d.n < threshold * 10 <= MAX_UINT
  {
    if k == 0 {
      assert s[..0] == "" && s[0..] == s;
    } else {
      assert s[..k][0] == s[0] && s[..k][1..] == s[1..][..k - 1] && s[1..][k - 1..] == s[k..];
      if IsDigit(s[0]) && value < threshold {
        AccumulatorNeverOverflows(s[1..], value * 10 + DigitValue(s[0]), threshold, k - 1);
      }
    }
  }

  lemma {:induction false} HornerGrows(v: nat, s: string)
    requires AllDigits(s)
    ensures Horner(v, s) >= v
    decreases s
  {
    if s != "" {
      HornerGrows(v * 10 + DigitValue(s[0]), s[1..]);
    }
  }

  function Limit(negative: bool): int {
    if negative then 2147483639 else 4294967289
  }

  // A signed digit string is stored as the exact integer it spells when its magnitude is
  // within the limit of its sign, and handed to the floating-point reader when it is not.
  lemma IntegerExactlyWithinLimit(t: string, scan: RealScanner)
    requires AllDigits(Unsigned(t))
    ensures var magnitude := Horner(0, Unsigned(t));
      DecodeNumber(t, scan) ==
        if magnitude <= Limit(IsNegative(t)) then Some(IntegerValue(IsNegative(t), magnitude))
        else DecodeReal(t, scan)
  {
    forall i | 0 < i < |t| ensures IsDigit(t[i]) {
      assert t[i] == if IsNegative(t) then Unsigned(t)[i - 1] else Unsigned(t)[i];
    }
    assert t != "" && !IsNegative(t) ==> IsDigit(t[0]);
    ScanDigitsExact(Unsigned(t), 0, Threshold(IsNegative(t)));
  }

  // The text is a digit string, signed or not, whose magnitude is within the limit.
  predicate SpellsInteger(t: string) {
    AllDigits(Unsigned(t)) && Horner(0, Unsigned(t)) <= Limit(IsNegative(t))
  }

  function Spelled(t: string): int
    requires SpellsInteger(t)
  {
    if IsNegative(t) then 0 - Horner(0, Unsigned(t)) else Horner(0, Unsigned(t))
  }

  // What a number token stands for: the integer it spells, signed if 32 bits allow it, and
  // otherwise whatever the foreign scanner makes of it, if anything.
  function NumeralValue(t: string, scan: RealScanner): Option<Value> {
    if SpellsInteger(t) then Some(if Spelled(t) <= 0x7FFF_FFFF then Int(Spelled(t)) else UInt(Spelled(t)))
    else match scan(t)
      case Some(r) => Some(Real(r))
      case None => None
  }

  // Every number token is read so, whatever points, exponents and signs it has.
  lemma NumeralMeans(t: string, scan: RealScanner)
    requires IsNumberText(t)
    ensures DecodeNumber(t, scan) == NumeralValue(t, scan)
  {
    var digits := Unsigned(t);
    if AllDigits(digits) {
      IntegerExactlyWithinLimit(t, scan);
    } else {
      var i :| 0 <= i < |digits| && !IsDigit(digits[i]);
      assert digits[i] == if IsNegative(t) then t[i + 1] else t[i];
      assert LooksReal(t);
    }
  }

  // The numeral of an integer spells it exactly within the limits.
  lemma IntTextSpells(n: int)
    ensures IsNumberText(IntText(n))
    ensures SpellsInteger(IntText(n)) <==> -Limit(true) <= n <= Limit(false)
    ensures SpellsInteger(IntText(n)) ==> Spelled(IntText(n)) == n
  {
    var digits := Decimal(if n < 0 then -n else n);
    assert Unsigned(IntText(n)) == digits;
    HornerOfDecimal(if n < 0 then -n else n);
  }

  // A printed numeral has no leading zeros.
  lemma {:induction false} NoLeadingZeros(n: nat)
    ensures Decimal(n)[0] == '0' <==> n == 0
    ensures n == 0 ==> Decimal(n) == "0"
  {
    if n >= 10 {
      NoLeadingZeros(n / 10);
    }
  }

  // Printing and reading an integer of the supported range is the identity.
  lemma PrintedIntegerReadsBack(n: int, scan: RealScanner)
    requires -Limit(true) <= n <= Limit(false)
    ensures DecodeNumber(IntText(n), scan) == Some(IntegerValue(n < 0, if n < 0 then -n else n))
    ensures View(IntegerValue(n < 0, if n < 0 then -n else n)) == JInt(n)
  {
    var digits := Decimal(if n < 0 then -n else n);
    assert Unsigned(IntText(n)) == digits;
    HornerOfDecimal(if n < 0 then -n else n);
    IntegerExactlyWithinLimit(IntText(n), scan);
  }

  // ... and outside that range it is not: the numeral is read as a real or refused.
  lemma BeyondLimitIsNotAnInteger(n: int, scan: RealScanner)
    requires n < -Limit(true) || n > Limit(false)
    ensures DecodeNumber(IntText(n), scan) == DecodeReal(IntText(n), scan)
  {
    var digits := Decimal(if n < 0 then -n else n);
    assert Unsigned(IntText(n)) == digits;
    HornerOfDecimal(if n < 0 then -n else n);
    IntegerExactlyWithinLimit(IntText(n), scan);
  }
}
