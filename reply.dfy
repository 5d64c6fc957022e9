/**
  The text of a counter reply. The server stores `format!("{}\n", n)` as the
  reply to a `ping` (src/main.rs:46); the client strips every '\n' from the line
  it reads and parses the rest with `str::parse::<u64>` (src/main.rs:93).
 */
module Reply {
  import opened Wrappers

  const U64_MAX: nat := 0xFFFF_FFFF_FFFF_FFFF

  predicate IsDigit(c: char) {
    '0' <= c <= '9'
  }

  predicate AllDigits(s: string) {
    forall i :: 0 <= i < |s| ==> IsDigit(s[i])
  }

  /** A digit string as `{}` prints it: non-empty, and no leading zero unless it is "0". */
  predicate Canonical(s: string) {
    |s| >= 1 && AllDigits(s) && (s[0] == '0' ==> |s| == 1)
  }

  function DigitChar(d: nat): (c: char)
    requires d < 10
    ensures IsDigit(c)
  {
    (('0' as int) + d) as char
  }

  function DigitValue(c: char): (d: nat)
    requires IsDigit(c)
    ensures d < 10
    ensures DigitChar(d) == c
  {
    (c as int) - ('0' as int)
  }

  /** The decimal digits of n, most significant first. */
  function Decimal(n: nat): string
    decreases n
  {
    if n < 10 then [DigitChar(n)] else Decimal(n / 10) + [DigitChar(n % 10)]
  }

  /** The reply line stored for counter value n: `format!("{}\n", n)`. */
  function FormatReply(n: nat): string {
    Decimal(n) + "\n"
  }

  /** `{}` prints an unsigned integer as canonical decimal: digits only, no leading zero except for 0 itself. */
  lemma {:induction false} DecimalCanonical(n: nat)
    ensures Canonical(Decimal(n))
    ensures Decimal(n)[0] == '0' <==> n == 0
    decreases n
  {
    if n >= 10 {
      DecimalCanonical(n / 10);
    }
  }

  /** A reply line is a canonical decimal number followed by one '\n', and has no other '\n'. */
  lemma FormatReplyShape(n: nat)
    ensures var line := FormatReply(n);
      && |line| >= 2 && line[|line| - 1] == '\n'
      && line[..|line| - 1] == Decimal(n)
      && '\n' !in Decimal(n)
  {
    DecimalCanonical(n);
    var d := Decimal(n);
    assert '\n' !in d by {
      forall i | 0 <= i < |d| ensures d[i] != '\n' { assert IsDigit(d[i]); }
    }
    assert FormatReply(n)[..|FormatReply(n)| - 1] == d;
  }

  /** `line.replace('\n', "")`: every '\n' removed, everything else kept in order. */
  function StripNewlines(s: string): (r: string)
    ensures '\n' !in r
    ensures |r| <= |s|
    ensures '\n' !in s ==> r == s
  {
    if s == [] then []
    else if s[0] == '\n' then StripNewlines(s[1..])
    else [s[0]] + StripNewlines(s[1..])
  }

  /** The value of a string of decimal digits, read left to right. */
  function DigitsValue(s: string): nat
    requires AllDigits(s)
    decreases |s|
  {
    if s == [] then 0 else DigitsValue(s[..|s| - 1]) * 10 + DigitValue(s[|s| - 1])
  }

  /**
    `str::parse::<u64>`: an optional leading '+', then at least one decimal
    digit and nothing else, whose value fits in 64 bits. Every other input
    (empty, a lone sign, a '-', any other character, overflow) is an error.
   */
  function ParseU64(s: string): (r: Option<nat>)
    ensures r.Some? ==> r.value <= U64_MAX
    ensures r.Some? ==> s != [] && (s[0] == '+' || IsDigit(s[0]))
    ensures r.Some? ==> AllDigits(if s[0] == '+' then s[1..] else s) && (s[0] == '+' ==> |s| >= 2)
  {
    var digits := if |s| > 0 && s[0] == '+' then s[1..] else s;
    if digits == [] || !AllDigits(digits) then None
    else if DigitsValue(digits) > U64_MAX then None
    else Some(DigitsValue(digits))
  }

  /** What the client makes of a reply line. */
  function ParseReply(line: string): Option<nat> {
    ParseU64(StripNewlines(line))
  }

  lemma {:induction false} DecimalValue(n: nat)
    ensures AllDigits(Decimal(n)) && DigitsValue(Decimal(n)) == n
    decreases n
  {
    DecimalCanonical(n);
    if n >= 10 {
      DecimalValue(n / 10);
      DecimalCanonical(n / 10);
      var s := Decimal(n);
      assert s[..|s| - 1] == Decimal(n / 10);
    }
  }

  /** Two counter values with the same reply text are equal. */
  lemma FormatReplyInjective(m: nat, n: nat)
    ensures FormatReply(m) == FormatReply(n) ==> m == n
  {
    if FormatReply(m) == FormatReply(n) {
      FormatReplyShape(m);
      FormatReplyShape(n);
      DecimalValue(m);
      DecimalValue(n);
    }
  }

  lemma {:induction false} StripNewlinesAppend(a: string, b: string)
    ensures StripNewlines(a + b) == StripNewlines(a) + StripNewlines(b)
    decreases |a|
  {
    if a == [] {
      assert a + b == b;
    } else {
      assert (a + b)[1..] == a[1..] + b;
      StripNewlinesAppend(a[1..], b);
    }
  }

  /** Round trip: the client reads back exactly the value the server formatted. */
  lemma FormatThenParse(n: nat)
    requires n <= U64_MAX
    ensures ParseReply(FormatReply(n)) == Some(n)
  {
    var d := Decimal(n);
    FormatReplyShape(n);
    DecimalCanonical(n);
    StripNewlinesAppend(d, "\n");
    assert StripNewlines(FormatReply(n)) == d;
    DecimalValue(n);
  }

  lemma {:induction false} LeadingDigitBound(s: string)
    requires AllDigits(s) && |s| >= 1 && s[0] != '0'
    ensures DigitsValue(s) >= 1
    decreases |s|
  {
    if |s| > 1 {
      LeadingDigitBound(s[..|s| - 1]);
    }
  }

  lemma {:induction false} ValueThenDecimal(s: string)
    requires Canonical(s)
    ensures Decimal(DigitsValue(s)) == s
    decreases |s|
  {
    if |s| > 1 {
      var p := s[..|s| - 1];
      LeadingDigitBound(p);
      ValueThenDecimal(p);
      var v := DigitsValue(s);
      assert v / 10 == DigitsValue(p) && v % 10 == DigitValue(s[|s| - 1]);
      assert s == p + [s[|s| - 1]];
    }
  }

  /**
    The other direction: a reply line that the client accepts and that is
    written as `{}` writes numbers is exactly the line the server formats for
    the parsed value.
   */
  lemma ParseThenFormat(digits: string)
    requires Canonical(digits) && DigitsValue(digits) <= U64_MAX
    ensures ParseReply(digits + "\n") == Some(DigitsValue(digits))
    ensures FormatReply(DigitsValue(digits)) == digits + "\n"
  {
    ValueThenDecimal(digits);
    FormatThenParse(DigitsValue(digits));
    assert FormatReply(DigitsValue(digits)) == digits + "\n";
  }
}
