/**
 * The parts of the .NET base library that the program's core relies on:
 * 32-bit `int`, `Int32.ToString()`, `Int32.Parse(string)`, `String.Split(char)`,
 * `String.Join`, C#'s truncating `/` and `%`, and `String.IsNullOrWhiteSpace`.
 */
module DotNet {
  import opened Wrappers

  /** C#'s `int`. */
  newtype int32 = n: int | -0x8000_0000 <= n < 0x8000_0000

  /** The exceptions the core can raise while reading a stored drawing. */
  datatype Exception =
    | FormatException            // `Int32.Parse` of text that is not an integer
    | OverflowException          // `Int32.Parse` of an integer outside 32 bits
    | IndexOutOfRangeException   // indexing an array or a string past its end
    | ArgumentOutOfRangeException // indexing a `List<T>` past its end

  // ---------------------------------------------------------------------------
  // C# integer division and remainder (truncating toward zero)

  /** C#'s `a / b`: the quotient rounded toward zero. */
  function CsDiv(a: int, b: int): (q: int)
    requires b > 0
    ensures a >= 0 ==> 0 <= a - q * b < b
    ensures a < 0 ==> -b < a - q * b <= 0
  {
    if a >= 0 then a / b else -((-a) / b)
  }

  /** C#'s `a % b`: the remainder has the sign of `a`. */
  function CsRem(a: int, b: int): (r: int)
    requires b > 0
    ensures a == CsDiv(a, b) * b + r
    ensures a >= 0 ==> 0 <= r < b
    ensures a < 0 ==> -b < r <= 0
  {
    if a >= 0 then a % b else -((-a) % b)
  }

  /** For `0 <= a < 2 * b` the remainder takes off `b` at most once. */
  lemma CsRemBelowTwice(a: int, b: int)
    requires b > 0 && 0 <= a < 2 * b
    ensures CsRem(a, b) == (if a < b then a else a - b)
  {
    ModBelowTwice(a, b);
  }

  lemma ModBelowTwice(a: int, b: int)
    requires b > 0 && 0 <= a < 2 * b
    ensures a % b == (if a < b then a else a - b)
  {
  }

  // ---------------------------------------------------------------------------
  // Int32.ToString() as the invariant culture writes it: '-' then decimal digits, no padding

  function DigitChar(d: nat): (c: char)
    requires d < 10
    ensures '0' <= c <= '9'
  {
    ['0', '1', '2', '3', '4', '5', '6', '7', '8', '9'][d]
  }

  predicate IsDigit(c: char) {
    '0' <= c <= '9'
  }

  function DigitValue(c: char): (d: nat)
    requires IsDigit(c)
    ensures d < 10
  {
    (c as int) - ('0' as int)
  }

  /** Decimal digits of `n`, most significant first, without leading zeros. */
  function NatDigits(n: nat): (s: string)
    ensures |s| > 0
    ensures forall i :: 0 <= i < |s| ==> IsDigit(s[i])
  {
    if n < 10 then [DigitChar(n)] else NatDigits(n / 10) + [DigitChar(n % 10)]
  }

  /** `n.ToString()` for a C# `int`. */
  function IntToString(n: int32): (s: string)
    ensures |s| > 0
    ensures IsDigit(s[|s| - 1])
    ensures s[0] == '-' || IsDigit(s[0])
    ensures forall i :: 0 < i < |s| ==> IsDigit(s[i])
  {
    if n < 0 then "-" + NatDigits(-(n as int)) else NatDigits(n as int)
  }

  // ---------------------------------------------------------------------------
  // Int32.Parse(string) with NumberStyles.Integer: leading and trailing white
  // space, an optional leading sign, then one or more decimal digits.

  /** White space as .NET's number parser understands it: U+0009..U+000D and U+0020. */
  predicate IsNumberWhite(c: char) {
    c == ' ' || ('\t' <= c <= '\r')
  }

  function TrimStart(s: string): (t: string)
    ensures |t| <= |s|
  {
    if |s| > 0 && IsNumberWhite(s[0]) then TrimStart(s[1..]) else s
  }

  function TrimEnd(s: string): (t: string)
    ensures |t| <= |s|
  {
    if |s| > 0 && IsNumberWhite(s[|s| - 1]) then TrimEnd(s[..|s| - 1]) else s
  }

  predicate AllDigits(s: string) {
    forall i :: 0 <= i < |s| ==> IsDigit(s[i])
  }

  /** The value of a string of decimal digits, read left to right. */
  function DigitsValue(s: string): (v: nat)
    requires AllDigits(s)
  {
    if |s| == 0 then 0 else DigitsValue(s[..|s| - 1]) * 10 + DigitValue(s[|s| - 1])
  }

  function Signed(v: nat, negative: bool): int {
    if negative then 0 - (v as int) else v as int
  }

  function ParseDigits(digits: string, negative: bool): (r: Result<int32, Exception>)
    ensures r.Err? <==> (|digits| == 0 || !AllDigits(digits) ||
                          !(-0x8000_0000 <= Signed(DigitsValue(digits), negative) < 0x8000_0000))
    ensures r.Err? && (|digits| == 0 || !AllDigits(digits)) ==> r.error == FormatException
    ensures r.Err? && |digits| > 0 && AllDigits(digits) ==> r.error == OverflowException
    ensures r.Ok? ==> r.value as int == Signed(DigitsValue(digits), negative)
  {
    if |digits| == 0 || !AllDigits(digits) then Err(FormatException)
    else
      var v := Signed(DigitsValue(digits), negative);
      if -0x8000_0000 <= v < 0x8000_0000 then Ok(v as int32) else Err(OverflowException)
  }

  /** `Int32.Parse(s)`. */
  function ParseInt(s: string): (r: Result<int32, Exception>)
    ensures r.Err? ==> r.error == FormatException || r.error == OverflowException
  {
    var t := TrimEnd(TrimStart(s));
    if |t| > 0 && (t[0] == '-' || t[0] == '+') then ParseDigits(t[1..], t[0] == '-')
    else ParseDigits(t, false)
  }

  lemma {:induction false} DigitsValueOfNatDigits(n: nat)
    ensures DigitsValue(NatDigits(n)) == n
  {
    var s := NatDigits(n);
    if n < 10 {
      assert s[..|s| - 1] == [];
    } else {
      assert s[..|s| - 1] == NatDigits(n / 10);
      DigitsValueOfNatDigits(n / 10);
    }
  }

  lemma TrimNothing(s: string)
    requires |s| > 0 && !IsNumberWhite(s[0]) && !IsNumberWhite(s[|s| - 1])
    ensures TrimEnd(TrimStart(s)) == s
  {
  }

  lemma ParseNatDigits(n: nat, negative: bool)
    requires -0x8000_0000 <= Signed(n, negative) < 0x8000_0000
    ensures ParseDigits(NatDigits(n), negative) == Ok(Signed(n, negative) as int32)
  {
    DigitsValueOfNatDigits(n);
  }

  lemma ParseNegativeToString(n: int32)
    requires n < 0
    ensures ParseInt(IntToString(n)) == Ok(n)
  {
    var s := IntToString(n);
    TrimNothing(s);
    var digits := NatDigits(-(n as int));
    assert s == "-" + digits;
    assert s[1..] == digits;
    assert ParseInt(s) == ParseDigits(digits, true);
    ParseNatDigits(-(n as int), true);
  }

  lemma ParseNonNegativeToString(n: int32)
    requires n >= 0
    ensures ParseInt(IntToString(n)) == Ok(n)
  {
    var s := IntToString(n);
    TrimNothing(s);
    assert s == NatDigits(n as int);
    assert ParseInt(s) == ParseDigits(s, false);
    ParseNatDigits(n as int, false);
  }

  /** `Int32.Parse(n.ToString()) == n` for every `int`. */
  lemma ParseIntOfIntToString(n: int32)
    ensures ParseInt(IntToString(n)) == Ok(n)
  {
    if n < 0 {
      ParseNegativeToString(n);
    } else {
      ParseNonNegativeToString(n);
    }
  }

  // ---------------------------------------------------------------------------
  // String.Split(char) and String.Join(string, ...)

  /**
   * `s.Split(sep)`: the pieces of `s` between occurrences of `sep`, in order,
   * empty pieces included, so that there is always at least one piece.
   */
  function Split(s: string, sep: char): (r: seq<string>)
    ensures |r| >= 1
    ensures forall i :: 0 <= i < |r| ==> sep !in r[i]
  {
    if s == [] then [""]
    else
      var rest := Split(s[1..], sep);
      if s[0] == sep then [""] + rest else [[s[0]] + rest[0]] + rest[1..]
  }

  /** No piece of a split holds a character that the split string does not hold. */
  lemma {:induction false} SplitAvoids(s: string, sep: char, c: char)
    requires c !in s
    ensures forall i :: 0 <= i < |Split(s, sep)| ==> c !in Split(s, sep)[i]
  {
    if s != [] {
      assert c !in s[1..];
      SplitAvoids(s[1..], sep, c);
    }
  }

  /** `String.Join(sep, parts)` for a one-character separator. */
  function Join(sep: char, parts: seq<string>): (s: string)
  {
    if |parts| == 0 then ""
    else if |parts| == 1 then parts[0]
    else parts[0] + [sep] + Join(sep, parts[1..])
  }

  lemma {:induction false} SplitSeparatorFree(p: string, t: string, sep: char)
    requires sep !in p
    ensures Split(p + t, sep) == [p + Split(t, sep)[0]] + Split(t, sep)[1..]
  {
    if p != [] {
      assert (p + t)[1..] == p[1..] + t;
      SplitSeparatorFree(p[1..], t, sep);
      assert [p[0]] + (p[1..] + Split(t, sep)[0]) == p + Split(t, sep)[0];
    } else {
      assert p + t == t;
      var r := Split(t, sep);
      assert p + r[0] == r[0];
      assert r == [r[0]] + r[1..];
    }
  }

  /** Splitting a join of separator-free pieces gives the pieces back. */
  lemma {:induction false} SplitJoin(parts: seq<string>, sep: char)
    requires |parts| >= 1
    requires forall i :: 0 <= i < |parts| ==> sep !in parts[i]
    ensures Split(Join(sep, parts), sep) == parts
  {
    if |parts| == 1 {
      SplitSeparatorFree(parts[0], "", sep);
      assert parts[0] + "" == parts[0];
    } else {
      var rest := Join(sep, parts[1..]);
      SplitJoin(parts[1..], sep);
      assert Split([sep] + rest, sep) == [""] + parts[1..];
      assert Join(sep, parts) == parts[0] + ([sep] + rest);
      SplitSeparatorFree(parts[0], [sep] + rest, sep);
      assert parts[0] + "" == parts[0];
    }
  }

  // ---------------------------------------------------------------------------
  // String.IsNullOrWhiteSpace

  /** `Char.IsWhiteSpace`: the Unicode space separators, line and paragraph separators, U+0009..U+000D, U+0085. */
  predicate IsWhiteSpace(c: char) {
    c == ' ' || ('\t' <= c <= '\r') || c == '\U{0085}' || c == '\U{00A0}' || c == '\U{1680}'
    || ('\U{2000}' <= c <= '\U{200A}') || c == '\U{2028}' || c == '\U{2029}'
    || c == '\U{202F}' || c == '\U{205F}' || c == '\U{3000}'
  }

  /** `String.IsNullOrWhiteSpace(line)`, with `None` for `null`. */
  predicate IsNullOrWhiteSpace(line: Option<string>) {
    match line
    case None => true
    case Some(s) => forall i :: 0 <= i < |s| ==> IsWhiteSpace(s[i])
  }
}
