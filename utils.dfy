/** Go integer types, base-10 conversions with strconv's rules, rune substrings
    and the small value helpers of the package. */
module Utils {
  import opened Wrappers

  const MinInt64: int := -0x8000_0000_0000_0000
  const MaxInt64: int := 0x7FFF_FFFF_FFFF_FFFF
  const MaxUint64: int := 0xFFFF_FFFF_FFFF_FFFF

  // Go's fixed-width integers; `int` and `uint` are 64 bits wide.
  type Int64 = x: int | MinInt64 <= x <= MaxInt64
  type Int32 = x: int | -0x8000_0000 <= x < 0x8000_0000
  type Int16 = x: int | -0x8000 <= x < 0x8000
  type Uint64 = x: int | 0 <= x <= MaxUint64
  type Uint32 = x: int | 0 <= x < 0x1_0000_0000
  type Uint16 = x: int | 0 <= x < 0x1_0000
  type Byte = x: int | 0 <= x < 0x100

  /** The signed integer types of Go, told apart by type assertions and reflection. */
  datatype IntType = GoInt | GoInt8 | GoInt16 | GoInt32 | GoInt64

  /** The unsigned integer types of Go. */
  datatype UintType = GoUint | GoUint8 | GoUint16 | GoUint32 | GoUint64

  /** 2^bits for a signed integer type. */
  function Modulus(t: IntType): (m: nat)
    ensures m >= 0x100
  {
    match t
    case GoInt8 => 0x100
    case GoInt16 => 0x1_0000
    case GoInt32 => 0x1_0000_0000
    case _ => 0x1_0000_0000_0000_0000
  }

  /** Conversion of an int64 to a narrower signed type: two's complement truncation. */
  function Truncate(v: int, t: IntType): (r: int)
    ensures -(Modulus(t) / 2) <= r < Modulus(t) / 2
    ensures (r - v) % Modulus(t) == 0
    ensures -(Modulus(t) / 2) <= v < Modulus(t) / 2 ==> r == v
  {
    var m := Modulus(t);
    (v + m / 2) % m - m / 2
  }

  /** Converting an int64 to int or int64 changes nothing. */
  lemma TruncateWide(v: int, t: IntType)
    requires MinInt64 <= v <= MaxInt64 && (t == GoInt || t == GoInt64)
    ensures Truncate(v, t) == v
  {
    assert Modulus(t) == 0x1_0000_0000_0000_0000;
    assert Modulus(t) / 2 == 0x8000_0000_0000_0000;
  }

  // ---------------------------------------------------------------------------
  // Base-10 text

  predicate IsDigit(c: char) { '0' <= c <= '9' }

  predicate AllDigits(s: string) { forall i :: 0 <= i < |s| ==> IsDigit(s[i]) }

  function DigitChar(d: nat): (c: char)
    requires d < 10
    ensures IsDigit(c) && c as int - '0' as int == d
  {
    ('0' as int + d) as char
  }

  function DigitValue(c: char): (d: nat)
    requires IsDigit(c)
    ensures d < 10
  {
    c as int - '0' as int
  }

  /** The canonical decimal text of a natural number: digits only, no leading zero. */
  function NatToDecimal(n: nat): (s: string)
    ensures |s| >= 1 && AllDigits(s)
    ensures s[0] == '0' ==> n == 0 && s == "0"
    decreases n
  {
    if n < 10 then [DigitChar(n)] else NatToDecimal(n / 10) + [DigitChar(n % 10)]
  }

  /** strconv.FormatInt(i, 10): a minus sign for negative numbers, then the digits. */
  function IntToDecimal(i: int): (s: string)
    ensures |s| >= 1
    ensures s[0] == '-' <==> i < 0
  {
    if i < 0 then "-" + NatToDecimal(-i) else NatToDecimal(i)
  }

  /** The value of a string of decimal digits, read left to right. */
  function DigitsValue(s: string): nat
    requires AllDigits(s)
  {
    if s == [] then 0 else DigitsValue(s[..|s| - 1]) * 10 + DigitValue(s[|s| - 1])
  }

  lemma {:induction false} DigitsValueOfDecimal(n: nat)
    ensures DigitsValue(NatToDecimal(n)) == n
    decreases n
  {
    if n >= 10 {
      var s := NatToDecimal(n);
      assert s[..|s| - 1] == NatToDecimal(n / 10);
      DigitsValueOfDecimal(n / 10);
    }
  }

  /** Index of the first character that is not a decimal digit, or |s|. */
  function FirstNonDigit(s: string): (k: nat)
    ensures k <= |s| && AllDigits(s[..k])
    ensures k < |s| ==> !IsDigit(s[k])
  {
    FirstNonDigitFrom(s, 0)
  }

  function FirstNonDigitFrom(s: string, i: nat): (k: nat)
    requires i <= |s| && AllDigits(s[..i])
    ensures i <= k <= |s| && AllDigits(s[..k])
    ensures k < |s| ==> !IsDigit(s[k])
    decreases |s| - i
  {
    if i == |s| || !IsDigit(s[i]) then i
    else
      assert s[..i + 1] == s[..i] + [s[i]];
      FirstNonDigitFrom(s, i + 1)
  }

  lemma AllDigitsFirstNonDigit(s: string)
    requires AllDigits(s)
    ensures FirstNonDigit(s) == |s|
  {
  }

  /** What strconv's integer parsers return: a value, ErrSyntax (value 0), or
      ErrRange together with the bound the parser returns beside it. */
  datatype NumResult = Parsed(value: int) | SyntaxError | RangeError(bound: int)

  /** strconv.ParseUint(s, 10, 64). The digits are scanned left to right; the
      scan stops with ErrRange as soon as the digits read so far exceed the
      maximum (even if a bad character follows), and with ErrSyntax at the first
      non-digit otherwise. Since the value of a digit prefix only grows, the
      first case is decided by the longest digit prefix. No sign is accepted. */
  function ParseUint(s: string): (r: NumResult)
    ensures r.Parsed? ==> s != "" && AllDigits(s) && r.value == DigitsValue(s) && r.value <= MaxUint64
    ensures r.RangeError? ==> r.bound == MaxUint64
  {
    if s == "" then SyntaxError
    else
      var k := FirstNonDigit(s);
      if DigitsValue(s[..k]) > MaxUint64 then RangeError(MaxUint64)
      else if k < |s| then SyntaxError
      else
        assert s[..k] == s;
        Parsed(DigitsValue(s))
  }

  /** strconv.ParseInt(s, 10, 64): an optional '+' or '-', then ParseUint of the
      rest; magnitudes beyond int64 give ErrRange with the bound of that sign. */
  function ParseInt(s: string): (r: NumResult)
    ensures r.Parsed? ==> MinInt64 <= r.value <= MaxInt64
    ensures r.RangeError? ==> r.bound == MaxInt64 || r.bound == MinInt64
  {
    if s == "" then SyntaxError
    else
      var neg := s[0] == '-';
      var digits := if s[0] == '+' || s[0] == '-' then s[1..] else s;
      match ParseUint(digits)
      case SyntaxError => SyntaxError
      case Parsed(un) => SignedLimit(un, neg)
      case RangeError(un) => SignedLimit(un, neg)
  }

  function SignedLimit(un: nat, neg: bool): (r: NumResult)
    ensures r.Parsed? ==> MinInt64 <= r.value <= MaxInt64
    ensures r.RangeError? ==> r.bound == (if neg then MinInt64 else MaxInt64)
    ensures !r.SyntaxError?
  {
    if !neg && un > MaxInt64 then RangeError(MaxInt64)
    else if neg && un > -MinInt64 then RangeError(MinInt64)
    else Parsed(if neg then -(un as int) else un)
  }

  /** strconv.Atoi(s) with its error ignored: the parsed value, 0 on ErrSyntax,
      and the clamped bound on ErrRange. */
  function StrconvAtoiValue(s: string): (v: Int64)
  {
    match ParseInt(s)
    case Parsed(v) => v
    case SyntaxError => 0
    case RangeError(b) => b
  }

  lemma UintRoundTrip(u: Uint64)
    ensures ParseUint(NatToDecimal(u)) == Parsed(u)
  {
    var s := NatToDecimal(u);
    AllDigitsFirstNonDigit(s);
    DigitsValueOfDecimal(u);
    assert s[..|s|] == s;
  }

  lemma IntRoundTrip(i: Int64)
    ensures ParseInt(IntToDecimal(i)) == Parsed(i)
  {
    var s := IntToDecimal(i);
    if i < 0 {
      var m: int := -(i as int);
      assert s[1..] == NatToDecimal(m);
      UintRoundTrip(m);
    } else {
      UintRoundTrip(i);
    }
  }

  // ---------------------------------------------------------------------------
  // Atoi, Atoi64, AtoUi, AtoUi64 (utils.go)

  /** A non-empty run of digits within range parses to its value. */
  lemma DigitsParse(s: string)
    ensures s != "" && AllDigits(s) && DigitsValue(s) <= MaxUint64 ==> ParseUint(s) == Parsed(DigitsValue(s))
  {
    if s != "" && AllDigits(s) {
      AllDigitsFirstNonDigit(s);
      assert s[..|s|] == s;
    }
  }

  /** Atoi64: strconv.ParseInt(s, 10, 64), or the first default (else 0) on any error. */
  function Atoi64(s: string, d: seq<Int64>): (i: Int64)
    ensures s != "" && AllDigits(s) && DigitsValue(s) <= MaxInt64 ==> i == DigitsValue(s)
    ensures ParseInt(s).Parsed? ==> i == ParseInt(s).value
    ensures !ParseInt(s).Parsed? ==> i == (if |d| > 0 then d[0] else 0)
  {
    DigitsParse(s);
    match ParseInt(s)
    case Parsed(v) => v
    case _ => if |d| > 0 then d[0] else 0
  }

  /** Atoi: strconv.Atoi, which for a 64-bit int agrees with ParseInt(s, 10, 64). */
  function Atoi(s: string, d: seq<Int64>): (i: Int64)
    ensures s != "" && AllDigits(s) && DigitsValue(s) <= MaxInt64 ==> i == DigitsValue(s)
    ensures ParseInt(s).Parsed? ==> i == ParseInt(s).value
    ensures !ParseInt(s).Parsed? ==> i == (if |d| > 0 then d[0] else 0)
  {
    Atoi64(s, d)
  }

  /** AtoUi: uint(Atoi64(s)), a two's complement reinterpretation of the int64. */
  function AtoUi(s: string): (u: Uint64)
    ensures Atoi64(s, []) >= 0 ==> u == Atoi64(s, [])
    ensures Atoi64(s, []) < 0 ==> u == Atoi64(s, []) + MaxUint64 + 1
  {
    Atoi64(s, []) % (MaxUint64 + 1)
  }

  /** AtoUi64: strconv.ParseUint(s, 10, 64), or the first default (else 0). */
  function AtoUi64(s: string, d: seq<Uint64>): (u: Uint64)
    ensures s != "" && AllDigits(s) && DigitsValue(s) <= MaxUint64 ==> u == DigitsValue(s)
    ensures !ParseUint(s).Parsed? ==> u == (if |d| > 0 then d[0] else 0)
  {
    DigitsParse(s);
    match ParseUint(s)
    case Parsed(v) => v
    case _ => if |d| > 0 then d[0] else 0
  }

  // ---------------------------------------------------------------------------
  // Integer formatters: each one is read back by the matching parser. Go has
  // one per integer type; they differ only in the type of their input.

  function Itoa(i: Int64): (s: string)
    ensures ParseInt(s) == Parsed(i)
  {
    IntRoundTrip(i);
    IntToDecimal(i)
  }

  function I16toA(i: Int16): (s: string)
    ensures ParseInt(s) == Parsed(i)
  {
    IntRoundTrip(i);
    IntToDecimal(i)
  }

  function I32toA(i: Int32): (s: string)
    ensures ParseInt(s) == Parsed(i)
  {
    IntRoundTrip(i);
    IntToDecimal(i)
  }

  function I64toA(i: Int64): (s: string)
    ensures ParseInt(s) == Parsed(i)
  {
    IntRoundTrip(i);
    IntToDecimal(i)
  }

  function UitoA(u: Uint64): (s: string)
    ensures ParseUint(s) == Parsed(u)
  {
    UintRoundTrip(u);
    NatToDecimal(u)
  }

  function Ui16toA(u: Uint16): (s: string)
    ensures ParseUint(s) == Parsed(u)
  {
    UintRoundTrip(u);
    NatToDecimal(u)
  }

  function Ui32toA(u: Uint32): (s: string)
    ensures ParseUint(s) == Parsed(u)
  {
    UintRoundTrip(u);
    NatToDecimal(u)
  }

  function Ui64toA(u: Uint64): (s: string)
    ensures ParseUint(s) == Parsed(u)
  {
    UintRoundTrip(u);
    NatToDecimal(u)
  }

  /** Atoi64 undoes I64toA (and Atoi undoes Itoa), whatever the defaults. */
  lemma AtoiRoundTrip(i: Int64, d: seq<Int64>)
    ensures Atoi64(I64toA(i), d) == i
    ensures Atoi(Itoa(i), d) == i
  {
  }

  /** AtoUi64 undoes Ui64toA, whatever the defaults. */
  lemma AtoUi64RoundTrip(u: Uint64, d: seq<Uint64>)
    ensures AtoUi64(Ui64toA(u), d) == u
  {
  }

  /** A text with a character that is neither a digit nor a leading sign never
      parses: Atoi64 and AtoUi64 then return their default, or 0. */
  lemma AtoiFallback(s: string, j: nat, d: seq<Int64>, du: seq<Uint64>)
    requires j < |s| && !IsDigit(s[j]) && !(j == 0 && (s[0] == '+' || s[0] == '-'))
    ensures Atoi64(s, d) == (if |d| > 0 then d[0] else 0)
    ensures AtoUi64(s, du) == (if |du| > 0 then du[0] else 0)
  {
    if s[0] == '+' || s[0] == '-' {
      assert s[1..][j - 1] == s[j];
    }
  }

  /** A sign alone, or nothing at all, is a syntax error. */
  lemma AtoiEmpty(d: seq<Int64>)
    ensures Atoi64("", d) == (if |d| > 0 then d[0] else 0)
    ensures Atoi64("-", d) == (if |d| > 0 then d[0] else 0)
    ensures Atoi64("+", d) == (if |d| > 0 then d[0] else 0)
  {
  }

  // ---------------------------------------------------------------------------
  // Substr (utils.go:173-212), on the runes of a string

  /** Go's int arithmetic on the sum or negation of 64-bit ints: the value
      modulo 2^64, read as a signed 64-bit int. One correction by 2^64
      suffices in that range. */
  function Wrap(v: int): (r: Int64)
    requires 2 * MinInt64 <= v <= 2 * MaxInt64
    ensures MinInt64 <= v <= MaxInt64 ==> r == v
  {
    if v > MaxInt64 then v - 0x1_0000_0000_0000_0000
    else if v < MinInt64 then v + 0x1_0000_0000_0000_0000
    else v
  }

  /** The window [lo, hi) Substr cuts, after its clamping of start and end,
      computed on unbounded integers; `end` is the length argument (0 when
      none is given). */
  function SubstrWindow(n: nat, start: int, end: int): (w: (int, int))
    requires start <= n
    ensures 0 <= w.0 <= w.1 <= n
  {
    var s1 := if start < 0 then (if -start >= n then 0 else n + start) else start;
    if end == 0 then (s1, n)
    else if end > 0 then (s1, if s1 + end > n then n else s1 + end)
    else
      var s2 := if s1 == 0 then n else s1;
      var lo := s2 + end;
      (if lo < 0 then 0 else lo, s2)
  }

  /** Substr as its doc comment describes it, on unbounded integers: a
      negative start counts from the end, a positive length takes that many
      runes forward, a negative one that many runes backward from start (from
      the end when start is 0). Only a single length argument is read; more
      than one is ignored. The statement builder cuts its lists with this. */
  function SubstrClamped(s: string, start: int, length: seq<int>): (r: string)
    ensures start > |s| ==> r == ""
    ensures |r| <= |s|
  {
    if start > |s| then ""
    else
      var w := SubstrWindow(|s|, start, if |length| == 1 then length[0] else 0);
      s[w.0..w.1]
  }

  /** Substr as written: start and length are 64-bit Go ints, so `-start`,
      `lth + start`, `end += start` and `start + end` wrap around. None stands
      for the panic of rs[start:end] when the window ends before it starts. */
  function Substr(s: string, start: Int64, length: seq<Int64>): (r: Option<string>)
    requires |s| <= MaxInt64
    ensures start > |s| ==> r == Some("")
    ensures r.Some? ==> |r.value| <= |s|
  {
    if start > |s| then Some("")
    else
      var n := |s|;
      var e := if |length| == 1 then length[0] else 0;
      var s1 := if start < 0 then (if Wrap(-(start as int)) >= n then 0 else Wrap(n + start)) else start;
      var w := if e == 0 then (s1, n)
        else if e > 0 then (s1, if Wrap(s1 + e) > n then n else Wrap(s1 + e))
        else (var s2 := if s1 == 0 then n else s1; (Wrap(s2 + e), s2));
      var lo := if w.0 < 0 then 0 else w.0;
      if lo <= w.1 then Some(s[lo..w.1]) else None
  }

  /** Substr panics exactly when the arithmetic wraps into a window that ends
      before it starts: start is MinInt64 (whose negation is itself) and a
      length moves the end below 0, or the end start + length overflows. */
  lemma SubstrPanics(s: string, start: Int64, length: seq<Int64>)
    requires |s| <= MaxInt64
    ensures var e := if |length| == 1 then length[0] else 0;
      Substr(s, start, length).None? <==>
        start <= |s| && e != 0 &&
        if start == MinInt64 then e < 0 || e + |s| <= MaxInt64
        else e > 0 && SubstrWindow(|s|, start, 0).0 + e > MaxInt64
  {
    var n := |s|;
    var e := if |length| == 1 then length[0] else 0;
    if start <= n && start < 0 {
      if start == MinInt64 {
        assert Wrap(-(start as int)) == MinInt64;
        assert Wrap(n + start) == n + start;
        if e > 0 {
          assert Wrap(n + start + e) == n + start + e;
        }
      } else {
        assert Wrap(-(start as int)) == -start;
      }
    }
  }

  /** Where no arithmetic wraps, Substr cuts the window of its doc comment. */
  lemma SubstrAgrees(s: string, start: Int64, length: seq<Int64>)
    requires |s| <= MaxInt64 && start != MinInt64
    requires |length| == 1 ==> length[0] <= MaxInt64 - |s|
    ensures Substr(s, start, length) == Some(SubstrClamped(s, start, length))
  {
    if start <= |s| && start < 0 {
      assert Wrap(-(start as int)) == -start;
    }
  }

  /** Two inputs on which Substr panics while its doc comment promises a
      clamped window. */
  lemma SubstrWrapPanics()
    ensures Substr("abc", 1, [MaxInt64]) == None
    ensures SubstrClamped("abc", 1, [MaxInt64]) == "bc"
    ensures Substr("abc", MinInt64, [2]) == None
    ensures SubstrClamped("abc", MinInt64, [2]) == "ab"
  {
    assert Wrap(1 + MaxInt64) == MinInt64;
    assert Wrap(-MinInt64) == MinInt64;
  }

  /** After the clamping the window is always inside the string, so the
      result is a contiguous run of the input's runes. */
  lemma SubstrIsSlice(s: string, start: int, length: seq<int>)
    ensures exists lo, hi :: 0 <= lo <= hi <= |s| && SubstrClamped(s, start, length) == s[lo..hi]
  {
    if start > |s| {
      assert SubstrClamped(s, start, length) == s[0..0];
    } else {
      var w := SubstrWindow(|s|, start, if |length| == 1 then length[0] else 0);
      assert SubstrClamped(s, start, length) == s[w.0..w.1];
    }
  }

  /** Substr(s, 1) drops exactly the first rune. */
  lemma SubstrDropsFirst(s: string)
    ensures SubstrClamped(s, 1, []) == if s == "" then "" else s[1..]
  {
  }

  /** The examples of Substr's doc comment, on "abc你好1234". None of them
      wraps, so by SubstrAgrees Substr gives the same. */
  lemma SubstrExamples()
    ensures var str := "abc\U{4F60}\U{597D}1234";
      && SubstrClamped(str, 0, []) == str
      && SubstrClamped(str, 2, []) == "c\U{4F60}\U{597D}1234"
      && SubstrClamped(str, -2, []) == "34"
      && SubstrClamped(str, 2, [3]) == "c\U{4F60}\U{597D}"
      && SubstrClamped(str, 0, [-2]) == "34"
      && SubstrClamped(str, 2, [-1]) == "b"
      && SubstrClamped(str, -3, [2]) == "23"
      && SubstrClamped(str, -3, [-2]) == "\U{597D}1"
  {
  }

  // ---------------------------------------------------------------------------
  // sql.NullString / sql.NullInt64 builders and Ternary

  datatype NullString = NullString(str: string, valid: bool)

  datatype NullInt64 = NullInt64(int64: Int64, valid: bool)

  /** The empty string becomes SQL NULL; reading NULL back as "" gives s again. */
  function NewNullString(s: string): (r: NullString)
    ensures r.valid <==> s != ""
    ensures (if r.valid then r.str else "") == s
    ensures !r.valid ==> r == NullString("", false)
  {
    if |s| == 0 then NullString("", false) else NullString(s, true)
  }

  /** The value is always carried; it is NULL exactly when isNull is set. */
  function NewNullInt64(n: Int64, isNull: bool): (r: NullInt64)
    ensures r.valid <==> !isNull
    ensures r.int64 == n
  {
    NullInt64(n, !isNull)
  }

  function Ternary<T>(b: bool, trueVal: T, falseVal: T): (r: T)
    ensures b ==> r == trueVal
    ensures !b ==> r == falseVal
  {
    if b then trueVal else falseVal
  }
}
