/** The parts of Go's strconv and strings that the program relies on. */
module Text {
  import opened Options

  const MAX_INT64: int := 0x7FFF_FFFF_FFFF_FFFF
  const MIN_INT64: int := -0x8000_0000_0000_0000

  predicate IsDigit(c: char) {
    '0' <= c <= '9'
  }

  function Digit(d: nat): (c: char)
    requires d < 10
  {
    ['0', '1', '2', '3', '4', '5', '6', '7', '8', '9'][d]
  }

  function DigitValue(c: char): (d: nat)
    requires IsDigit(c)
    ensures d < 10
  {
    c as int - '0' as int
  }

  predicate AllDigits(s: string) {
    forall i | 0 <= i < |s| :: IsDigit(s[i])
  }

  function FormatNat(n: nat): (s: string)
    ensures |s| > 0 && AllDigits(s)
  {
    if n < 10 then [Digit(n)] else FormatNat(n / 10) + [Digit(n % 10)]
  }

  /** The %d verb. */
  function FormatInt(n: int): string {
    if n < 0 then "-" + FormatNat(-n) else FormatNat(n)
  }

  function DigitsValue(s: string): nat
    requires AllDigits(s)
  {
    if s == "" then 0 else 10 * DigitsValue(s[..|s| - 1]) + DigitValue(s[|s| - 1])
  }

  lemma {:induction false} FormatNatRoundTrip(n: nat)
    ensures DigitsValue(FormatNat(n)) == n
  {
    if n >= 10 {
      FormatNatRoundTrip(n / 10);
      assert FormatNat(n)[..|FormatNat(n)| - 1] == FormatNat(n / 10);
    }
  }

  /** What strconv.ParseInt returns: a value and whether there was no error. */
  datatype Parsed = Parsed(value: int, ok: bool)

  function Unsigned(s: string): string {
    if s != "" && (s[0] == '+' || s[0] == '-') then s[1..] else s
  }

  /** strconv.ParseInt(s, 10, 64), and strconv.Atoi: an out-of-range number is clamped and an error. */
  function ParseInt(s: string): Parsed {
    var digits := Unsigned(s);
    if digits == "" || !AllDigits(digits) then Parsed(0, false)
    else
      var n := if s[0] == '-' then -(DigitsValue(digits) as int) else DigitsValue(digits) as int;
      if n > MAX_INT64 then Parsed(MAX_INT64, false)
      else if n < MIN_INT64 then Parsed(MIN_INT64, false)
      else Parsed(n, true)
  }

  /** A digit more makes the value ten times as large and adds the digit. */
  lemma OneMoreDigit(s: string, c: char)
    requires AllDigits(s) && IsDigit(c)
    ensures AllDigits(s + [c]) && DigitsValue(s + [c]) == 10 * DigitsValue(s) + (c as int - '0' as int)
  {
    assert (s + [c])[..|s|] == s;
  }

  /** Digits with an optional sign are a number; a number that does not fit is clamped and an error, and every
      other text is an error. */
  lemma ParseIntOf(s: string, digits: string)
    ensures digits != "" && AllDigits(digits) && (s == digits || s == "+" + digits) ==>
      ParseInt(s) == if DigitsValue(digits) <= 9223372036854775807 then Parsed(DigitsValue(digits), true)
        else Parsed(9223372036854775807, false)
    ensures digits != "" && AllDigits(digits) && s == "-" + digits ==>
      ParseInt(s) == if DigitsValue(digits) <= 9223372036854775808 then Parsed(-(DigitsValue(digits) as int), true)
        else Parsed(-9223372036854775808, false)
    ensures s == "" || s == "+" || s == "-" ==> ParseInt(s) == Parsed(0, false)
    ensures forall i | 0 < i < |s| && !IsDigit(s[i]) :: ParseInt(s) == Parsed(0, false)
    ensures s != "" && !IsDigit(s[0]) && s[0] != '+' && s[0] != '-' ==> ParseInt(s) == Parsed(0, false)
  {
    if s == "+" + digits || s == "-" + digits { assert s[1..] == digits; }
    if digits != "" && AllDigits(digits) && s == digits { assert IsDigit(s[0]); }
    forall i | 0 < i < |s| && !IsDigit(s[i]) ensures ParseInt(s) == Parsed(0, false) {
      assert s[1..][i - 1] == s[i];
    }
  }

  /** Reading back a printed 64-bit integer. */
  lemma FormatIntRoundTrip(n: int)
    requires MIN_INT64 <= n <= MAX_INT64
    ensures ParseInt(FormatInt(n)) == Parsed(n, true)
  {
    if n < 0 {
      FormatNatRoundTrip(-n);
      assert FormatInt(n)[1..] == FormatNat(-n);
    } else {
      FormatNatRoundTrip(n);
      assert IsDigit(FormatNat(n)[0]);
    }
  }

  /** The place of the first occurrence of a character, or the length. */
  function IndexOf(s: string, c: char): (i: nat)
    ensures i <= |s| && c !in s[..i] && (i < |s| ==> s[i] == c)
  {
    if s == "" || s[0] == c then 0
    else
      var i := IndexOf(s[1..], c) + 1;
      assert s[..i] == [s[0]] + s[1..][..i - 1];
      i
  }

  /** strings.SplitN(s, sep, 2) for a one-character separator: the two parts, if the separator occurs. */
  function Cut(s: string, sep: char): (parts: Option<(string, string)>)
    ensures parts.None? <==> sep !in s
    ensures parts.Some? ==> s == parts.value.0 + [sep] + parts.value.1 && sep !in parts.value.0
  {
    var i := IndexOf(s, sep);
    if i == |s| then assert s[..i] == s; None else Some((s[..i], s[i + 1..]))
  }

  lemma CutAt(a: string, sep: char, b: string)
    requires sep !in a
    ensures Cut(a + [sep] + b, sep) == Some((a, b))
  {
    var s := a + [sep] + b;
    var i := IndexOf(s, sep);
    assert s[|a|] == sep;
    assert forall k | 0 <= k < |a| :: s[k] == a[k] && a[k] != sep;
    assert forall k | 0 <= k < i :: s[k] == s[..i][k] && s[k] != sep;
    assert s[..|a|] == a && s[|a| + 1..] == b;
  }

  /** strings.Split(s, sep) for a one-character separator. */
  function Split(s: string, sep: char): (parts: seq<string>)
    ensures |parts| >= 1
    decreases |s|
  {
    var i := IndexOf(s, sep);
    if i == |s| then [s] else [s[..i]] + Split(s[i + 1..], sep)
  }

  /** Splitting a text that was put together from lines without the separator gives the lines. */
  lemma SplitAt(a: string, sep: char, b: string)
    requires sep !in a
    ensures Split(a + [sep] + b, sep) == [a] + Split(b, sep)
  {
    CutAt(a, sep, b);
  }

  lemma SplitLast(a: string, sep: char)
    requires sep !in a
    ensures Split(a, sep) == [a]
  {}

  /** The characters strings.TrimSpace removes (unicode.IsSpace). */
  predicate IsSpace(c: char) {
    c in {'\t', '\n', '\U{0B}', '\U{0C}', '\r', ' ', '\U{85}', '\U{A0}', '\U{1680}', '\U{2028}', '\U{2029}',
      '\U{202F}', '\U{205F}', '\U{3000}'}
    || '\U{2000}' <= c <= '\U{200A}'
  }

  function TrimLeft(s: string): (t: string)
    ensures t == "" || !IsSpace(t[0])
    ensures |t| <= |s| && t == s[|s| - |t|..]
    ensures forall i | 0 <= i < |s| - |t| :: IsSpace(s[i])
  {
    if s != "" && IsSpace(s[0]) then TrimLeft(s[1..]) else s
  }

  function TrimRight(s: string): (t: string)
    ensures t == "" || !IsSpace(t[|t| - 1])
    ensures |t| <= |s| && t == s[..|t|]
    ensures forall i | |t| <= i < |s| :: IsSpace(s[i])
  {
    if s != "" && IsSpace(s[|s| - 1]) then TrimRight(s[..|s| - 1]) else s
  }

  /** strings.TrimSpace. */
  function TrimSpace(s: string): string {
    TrimRight(TrimLeft(s))
  }

  /** A text is its own trim exactly if it neither starts nor ends with a space. */
  lemma TrimmedIff(s: string)
    ensures TrimSpace(s) == s <==> (s == "" || (!IsSpace(s[0]) && !IsSpace(s[|s| - 1])))
  {}

  lemma TrimIdempotent(s: string)
    ensures TrimSpace(TrimSpace(s)) == TrimSpace(s)
  {}
}
