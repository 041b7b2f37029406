/** Ports and port ranges as the administrator types them (app/helpers.php, AssignmentService.php:28). */
module PortStrings {
  import opened Wrappers

  const PORT_FLOOR := 1024
  const PORT_CEIL := 65535
  const PORT_RANGE_LIMIT := 1000

  predicate IsDigit(c: char) {
    '0' <= c <= '9'
  }

  /** `ctype_digit`: at least one character, and only digits. */
  predicate IsDigits(s: string) {
    |s| > 0 && forall i | 0 <= i < |s| :: IsDigit(s[i])
  }

  function ToInt(s: string): nat
    requires forall i | 0 <= i < |s| :: IsDigit(s[i])
  {
    if s == "" then 0
    else
      assert IsDigit(s[|s| - 1]);
      ToInt(s[..|s| - 1]) * 10 + DigitValue(s[|s| - 1])
  }

  function DigitValue(c: char): nat
    requires IsDigit(c)
  {
    c as int - '0' as int
  }

  predicate IsPortNumber(s: string) {
    4 <= |s| <= 5 && IsDigits(s)
  }

  /** The part of a range after its dash; `$` also matches before a final newline. */
  function WithoutNewline(s: string): string {
    if |s| > 0 && s[|s| - 1] == '\n' then s[..|s| - 1] else s
  }

  /** `/^(\d{4,5})-(\d{4,5})$/`, with the dash at a given position. */
  predicate RangeAt(s: string, dash: nat) {
    && dash < |s| && s[dash] == '-'
    && IsPortNumber(s[..dash])
    && IsPortNumber(WithoutNewline(s[dash + 1..]))
  }

  function ParseRange(s: string): Option<(nat, nat)> {
    if RangeAt(s, 4) then Some((ToInt(s[..4]), ToInt(WithoutNewline(s[5..]))))
    else if RangeAt(s, 5) then Some((ToInt(s[..5]), ToInt(WithoutNewline(s[6..]))))
    else None
  }

  /** A string is never a port and a range, and only one position can hold the dash. */
  lemma RangeIsUnambiguous(s: string, dash: nat)
    requires RangeAt(s, dash)
    ensures ParseRange(s) == Some((ToInt(s[..dash]), ToInt(WithoutNewline(s[dash + 1..]))))
    ensures !IsDigits(s)
  {
    assert !IsDigit('-');
    assert dash == 4 || dash == 5;
    if dash == 5 {
      assert s[..5][4] == s[4];
    }
  }

  /** `range(a, b)`: ascending or descending. */
  function Span(a: int, b: int): (r: seq<int>)
    ensures |r| == (if a <= b then b - a else a - b) + 1
    ensures forall k | 0 <= k < |r| :: r[k] == if a <= b then a + k else a - k
  {
    if a <= b then seq(b - a + 1, k => a + k) else seq(a - b + 1, k => a - k)
  }

  // ---------------------------------------------------------------------
  // Numbers written out
  // ---------------------------------------------------------------------

  function Digit(d: nat): (c: char)
    requires d < 10
    ensures IsDigit(c) && DigitValue(c) == d
  {
    '0' + d as char
  }

  function Decimal(n: nat): string {
    if n < 10 then [Digit(n)] else Decimal(n / 10) + [Digit(n % 10)]
  }

  /** `strval` of an integer. */
  function Text(n: int): string {
    if n < 0 then "-" + Decimal(-n) else Decimal(n)
  }

  lemma OneMoreDigit(s: string, d: nat)
    requires IsDigits(s) && d < 10
    ensures IsDigits(s + [Digit(d)]) && ToInt(s + [Digit(d)]) == ToInt(s) * 10 + d
  {
    assert (s + [Digit(d)])[..|s|] == s;
  }

  lemma {:induction false} DecimalReadsBack(n: nat)
    ensures IsDigits(Decimal(n)) && ToInt(Decimal(n)) == n
  {
    if n < 10 {
      assert Decimal(n)[..0] == "";
    } else {
      DecimalReadsBack(n / 10);
      OneMoreDigit(Decimal(n / 10), n % 10);
    }
  }

  /** A number is never read as a range. */
  lemma TextIsNoRange(n: int)
    ensures ParseRange(Text(n)) == None
    ensures IsDigits(Text(n)) <==> n >= 0
  {
    var s := Text(n);
    if n < 0 {
      assert s[0] == '-' && !IsDigit('-');
      assert forall k | 1 <= k <= |s| :: s[..k][0] == '-';
    } else {
      DecimalReadsBack(n);
      assert !IsDigit('-');
    }
  }

  lemma {:induction false} DecimalLength(n: nat)
    ensures |Decimal(n)| >= 1 && (|Decimal(n)| == 1 <==> n < 10) && (|Decimal(n)| <= 2 <==> n < 100)
    ensures (|Decimal(n)| <= 3 <==> n < 1000) && (|Decimal(n)| <= 4 <==> n < 10000) && (|Decimal(n)| <= 5 <==> n < 100000)
  {
    if n >= 10 {
      DecimalLength(n / 10);
    }
  }

  lemma OneDash(a: string, b: string, end: string, dash: nat)
    requires IsDigits(a) && IsDigits(b) && (end == "" || end == "\n")
    ensures var s := a + "-" + b + end;
      && (dash < |s| && s[dash] == '-' <==> dash == |a|)
      && s[..|a|] == a && WithoutNewline(s[|a| + 1..]) == b
  {
    var s := a + "-" + b + end;
    assert !IsDigit('-') && !IsDigit('\n');
    assert s[|a| + 1..] == b + end && (b + end)[..|b|] == b;
  }

  lemma DigitsDashDigits(a: string, b: string, end: string)
    requires IsDigits(a) && IsDigits(b) && (end == "" || end == "\n")
    ensures !IsDigits(a + "-" + b + end)
    ensures ParseRange(a + "-" + b + end) ==
      if IsPortNumber(a) && IsPortNumber(b) then Some((ToInt(a), ToInt(b))) else None
  {
    var s := a + "-" + b + end;
    OneDash(a, b, end, |a|);
    OneDash(a, b, end, 4);
    OneDash(a, b, end, 5);
    assert s[|a|] == '-' && !IsDigit('-');
  }

  /** Two numbers with a dash between them are a range exactly when both have four or five digits. */
  lemma RangeReadsBack(a: nat, b: nat, end: string)
    requires end == "" || end == "\n"
    ensures var s := Decimal(a) + "-" + Decimal(b) + end;
      && !IsDigits(s)
      && ParseRange(s) == if 1000 <= a <= 99999 && 1000 <= b <= 99999 then Some((a, b)) else None
  {
    DecimalReadsBack(a);
    DecimalReadsBack(b);
    DecimalLength(a);
    DecimalLength(b);
    DigitsDashDigits(Decimal(a), Decimal(b), end);
  }
}
