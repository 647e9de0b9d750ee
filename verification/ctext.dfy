/** The C and C++ standard-library text conversions the programs rely on,
    in the "C" locale:
    - `std::istream >> std::string` (one whitespace-delimited word),
    - `std::istream >> int` and `std::stoi` (an optionally signed decimal
      prefix after leading whitespace, refused when it does not fit an `int`),
    - `std::atoi` (the same prefix, 0 when there is none),
    - `std::to_string(int)` and `std::ostream << int` (decimal rendering).
    A byte is modelled as a `char`. */
module CText {
  import opened Wrappers

  const IntMin: int := -0x8000_0000
  const IntMax: int := 0x7FFF_FFFF

  /** The value fits a 32-bit `int`. */
  predicate InInt(n: int) {
    IntMin <= n <= IntMax
  }

  /** A C++ `int`. */
  type Int32 = n: int | InInt(n)

  /** `isspace` in the "C" locale: space, \t, \n, \v, \f, \r. */
  predicate IsSpace(c: char) {
    c == ' ' || c == '\t' || c == '\n' || c == '\U{000B}' || c == '\U{000C}' || c == '\r'
  }

  predicate IsDigit(c: char) {
    '0' <= c <= '9'
  }

  predicate NotSpace(c: char) {
    !IsSpace(c)
  }

  predicate AllDigits(d: string) {
    forall i :: 0 <= i < |d| ==> IsDigit(d[i])
  }

  /** Length of the longest prefix of `s` whose characters all satisfy `p`. */
  function Span(s: string, p: char -> bool): (n: nat)
    ensures n <= |s|
    ensures forall i :: 0 <= i < n ==> p(s[i])
    ensures n == |s| || !p(s[n])
  {
    if s != [] && p(s[0]) then 1 + Span(s[1..], p) else 0
  }

  lemma {:induction false} SpanOfConcat(a: string, b: string, p: char -> bool)
    requires forall i :: 0 <= i < |a| ==> p(a[i])
    requires b == [] || !p(b[0])
    ensures Span(a + b, p) == |a|
  {
    if a != [] {
      assert (a + b)[0] == a[0];
      assert (a + b)[1..] == a[1..] + b;
      SpanOfConcat(a[1..], b, p);
    } else {
      assert a + b == b;
    }
  }

  /** Drops the leading whitespace, as an input stream's sentry does. */
  function SkipSpace(s: string): (r: string)
    ensures |r| <= |s| && r == s[|s| - |r|..]
    ensures forall i :: 0 <= i < |s| - |r| ==> IsSpace(s[i])
    ensures r == [] || !IsSpace(r[0])
  {
    s[Span(s, IsSpace)..]
  }

  /** A word or number extracted from a stream, and what the stream still holds. */
  datatype Read<T> = Read(value: T, rest: string)

  /** `stream >> word`: skip whitespace, then take the longest run of
      non-whitespace characters (empty when only whitespace is left). */
  function ReadWord(s: string): (w: Read<string>)
    ensures |w.value| + |w.rest| <= |s|
    ensures s == s[..|s| - |w.value| - |w.rest|] + w.value + w.rest
    ensures forall i :: 0 <= i < |s| - |w.value| - |w.rest| ==> IsSpace(s[i])
    ensures forall i :: 0 <= i < |w.value| ==> !IsSpace(w.value[i])
    ensures w.rest == [] || IsSpace(w.rest[0])
    ensures w.value == [] <==> forall i :: 0 <= i < |s| ==> IsSpace(s[i])
  {
    var t := SkipSpace(s);
    var n := Span(t, NotSpace);
    assert t == t[..n] + t[n..];
    assert t != [] ==> t[0] == s[|s| - |t|];
    Read(t[..n], t[n..])
  }

  function DigitValue(c: char): (v: nat)
    requires IsDigit(c)
    ensures v < 10
  {
    (c as int) - ('0' as int)
  }

  function DigitChar(v: nat): (c: char)
    requires v < 10
    ensures IsDigit(c) && DigitValue(c) == v
  {
    ('0' as int + v) as char
  }

  /** The value of a string of decimal digits, most significant first. */
  function DigitsValue(d: string): nat
    requires AllDigits(d)
  {
    if d == [] then 0 else DigitsValue(d[..|d| - 1]) * 10 + DigitValue(d[|d| - 1])
  }

  /** The optionally signed decimal number at the very start of `t`, with
      its value taken in unbounded arithmetic; `None` when no digit follows
      the sign. */
  function ScanNumber(t: string): (r: Option<Read<int>>)
    ensures r.Some? ==> |r.value.rest| < |t| && r.value.rest == t[|t| - |r.value.rest|..]
    ensures r.Some? ==> r.value.rest == [] || !IsDigit(r.value.rest[0])
  {
    var signed := t != [] && (t[0] == '-' || t[0] == '+');
    var u := if signed then t[1..] else t;
    var k := Span(u, IsDigit);
    if k == 0 then None
    else
      var magnitude: int := DigitsValue(u[..k]);
      Some(Read(if signed && t[0] == '-' then -magnitude else magnitude, u[k..]))
  }

  /** The prefix that `strtol(s, _, 10)` consumes: leading whitespace, then
      an optionally signed decimal number. */
  function ScanInt(s: string): (r: Option<Read<int>>)
    ensures r.Some? ==> |r.value.rest| < |s| && r.value.rest == s[|s| - |r.value.rest|..]
    ensures r.Some? ==> r.value.rest == [] || !IsDigit(r.value.rest[0])
  {
    var t := SkipSpace(s);
    var r := ScanNumber(t);
    if r.Some? then SuffixOfSuffix(s, t, r.value.rest); r else r
  }

  lemma Associative(a: string, b: string, c: string)
    ensures a + b + c == a + (b + c)
  {
  }

  lemma SuffixOfSuffix(s: string, t: string, u: string)
    requires |t| <= |s| && t == s[|s| - |t|..]
    requires |u| <= |t| && u == t[|t| - |u|..]
    ensures u == s[|s| - |u|..]
  {
  }

  /** `stream >> n` for an `int n`: fails when there is no number or when it
      does not fit an `int` (the stream's failbit). */
  function ReadInt(s: string): (r: Option<Read<int>>)
    ensures r.Some? ==> InInt(r.value.value)
    ensures r.Some? <==> ScanInt(s).Some? && InInt(ScanInt(s).value.value)
    ensures r.Some? ==> r == ScanInt(s)
  {
    match ScanInt(s)
    case None => None
    case Some(x) => if InInt(x.value) then Some(x) else None
  }

  /** `atoi` is defined: the scanned number, if any, fits an `int`. */
  predicate AtoiDefined(s: string) {
    ScanInt(s).None? || InInt(ScanInt(s).value.value)
  }

  /** `std::atoi`: the leading number, or 0 when there is none. */
  function Atoi(s: string): (n: int)
    requires AtoiDefined(s)
    ensures InInt(n)
    ensures ScanInt(s).None? ==> n == 0
    ensures ScanInt(s).Some? ==> n == ScanInt(s).value.value
  {
    match ScanInt(s)
    case None => 0
    case Some(x) => x.value
  }

  /** `std::stoi`: like `stream >> int`, but signalling failure by throwing
      `std::invalid_argument` or `std::out_of_range`, both with the text "stoi". */
  function Stoi(s: string): (r: Result<int>)
    ensures r.Ok? <==> ReadInt(s).Some?
    ensures r.Ok? ==> r.value == ReadInt(s).value.value
    ensures r.Err? ==> r.error == "stoi"
  {
    match ReadInt(s)
    case None => Err("stoi")
    case Some(x) => Ok(x.value)
  }

  /** The decimal digits of `n`, without leading zeros. */
  function DigitsOf(n: nat): (d: string)
    ensures d != [] && AllDigits(d)
    ensures d[0] == '0' ==> n == 0
  {
    if n < 10 then [DigitChar(n)] else DigitsOf(n / 10) + [DigitChar(n % 10)]
  }

  /** `std::to_string(n)`, also what `std::ostream << n` writes. */
  function IntToString(n: int): (s: string)
    ensures s != []
    ensures s[0] == '-' <==> n < 0
    ensures s[0] != '-' ==> IsDigit(s[0])
  {
    if n < 0 then "-" + DigitsOf(-n) else DigitsOf(n)
  }

  lemma {:induction false} DigitsOfValue(n: nat)
    ensures DigitsValue(DigitsOf(n)) == n
  {
    if n >= 10 {
      var d := DigitsOf(n);
      assert d[..|d| - 1] == DigitsOf(n / 10);
      DigitsOfValue(n / 10);
    }
  }

  /** Reading back what `IntToString` wrote gives the number and leaves
      whatever followed it, provided a digit does not follow immediately. */
  lemma ScanIntToString(n: int, rest: string)
    requires rest == [] || !IsDigit(rest[0])
    ensures ScanInt(IntToString(n) + rest) == Some(Read(n, rest))
  {
    if n < 0 {
      assert IntToString(n) == "-" + DigitsOf(-n);
      ScanNegative(-n, rest);
    } else {
      assert IntToString(n) == DigitsOf(n);
      ScanDigits(n, rest);
    }
  }

  /** Digits followed by a non-digit scan as their value. */
  lemma ScanUnsigned(d: string, rest: string)
    requires d != [] && AllDigits(d)
    requires rest == [] || !IsDigit(rest[0])
    ensures ScanNumber(d + rest) == Some(Read(DigitsValue(d) as int, rest))
  {
    var s := d + rest;
    assert s[0] == d[0];
    SpanOfConcat(d, rest, IsDigit);
    assert s[..|d|] == d && s[|d|..] == rest;
  }

  /** Text that starts with a non-blank scans as the number at its start. */
  lemma NothingToSkip(t: string)
    requires t != [] && !IsSpace(t[0])
    ensures ScanInt(t) == ScanNumber(t)
  {
    assert SkipSpace(t) == t;
  }

  /** The digits of `m`, followed by a non-digit, scan as `m`. */
  lemma DigitsNumber(m: nat, rest: string)
    requires rest == [] || !IsDigit(rest[0])
    ensures ScanNumber(DigitsOf(m) + rest) == Some(Read(m as int, rest))
    ensures IsDigit((DigitsOf(m) + rest)[0])
  {
    ScanUnsigned(DigitsOf(m), rest);
    DigitsOfValue(m);
  }

  lemma ScanDigits(m: nat, rest: string)
    requires rest == [] || !IsDigit(rest[0])
    ensures ScanInt(DigitsOf(m) + rest) == Some(Read(m as int, rest))
  {
    DigitsNumber(m, rest);
    NothingToSkip(DigitsOf(m) + rest);
  }

  lemma ScanNegative(m: nat, rest: string)
    requires m > 0
    requires rest == [] || !IsDigit(rest[0])
    ensures ScanInt("-" + DigitsOf(m) + rest) == Some(Read(-(m as int), rest))
  {
    Associative("-", DigitsOf(m), rest);
    NegativeNumber(m, rest);
  }

  lemma NegativeNumber(m: nat, rest: string)
    requires rest == [] || !IsDigit(rest[0])
    ensures ScanInt("-" + (DigitsOf(m) + rest)) == Some(Read(-(m as int), rest))
  {
    var d := DigitsOf(m) + rest;
    DigitsNumber(m, rest);
    MinusSign(d);
    assert ("-" + d)[0] == '-';
    NothingToSkip("-" + d);
  }

  /** A minus sign before digits negates what the digits scan as. */
  lemma MinusSign(d: string)
    requires d != [] && IsDigit(d[0])
    ensures ScanNumber(d).Some?
    ensures ScanNumber("-" + d) == Some(Read(-ScanNumber(d).value.value, ScanNumber(d).value.rest))
  {
    assert ("-" + d)[1..] == d;
  }

  /** `stream >> n` reads back `stream << n` for every `int`. */
  lemma ReadIntToString(n: int, rest: string)
    requires InInt(n)
    requires rest == [] || !IsDigit(rest[0])
    ensures ReadInt(IntToString(n) + rest) == Some(Read(n, rest))
  {
    ScanIntToString(n, rest);
  }

  /** Leading whitespace does not change what `strtol` scans. */
  lemma ScanIntSkipsSpace(c: char, s: string)
    requires IsSpace(c)
    ensures ScanInt([c] + s) == ScanInt(s)
  {
    var cs := [c] + s;
    assert cs[0] == c && cs[1..] == s;
    assert Span(cs, IsSpace) == 1 + Span(s, IsSpace);
    assert SkipSpace(cs) == SkipSpace(s);
  }

  /** `stream >> n` reads back a number written after a blank. */
  lemma ReadIntAfterBlank(c: char, n: int, rest: string)
    requires IsSpace(c) && InInt(n)
    requires rest == [] || !IsDigit(rest[0])
    ensures ReadInt([c] + (IntToString(n) + rest)) == Some(Read(n, rest))
  {
    ScanIntSkipsSpace(c, IntToString(n) + rest);
    ReadIntToString(n, rest);
  }

  /** `IntToString` ends in a digit, so no digit of what follows it can be
      read as part of the number. */
  lemma EndsInDigit(n: int)
    ensures IsDigit(IntToString(n)[|IntToString(n)| - 1])
  {
    if n < 0 {
      var d := DigitsOf(-n);
      assert IntToString(n)[|IntToString(n)| - 1] == d[|d| - 1];
    }
  }

  /** `IntToString` is injective, so an echoed number identifies its value. */
  lemma IntToStringInjective(m: int, n: int)
    requires IntToString(m) == IntToString(n)
    ensures m == n
  {
    ScanIntToString(m, []);
    ScanIntToString(n, []);
    assert IntToString(m) + [] == IntToString(m);
    assert IntToString(n) + [] == IntToString(n);
  }
}
