/**
 * Decimal integers and range patterns: the printers of router.go and middleware.go, the pattern
 * dispatch of matcher.go and the range matcher of range.go. A byte of a Go string is a `char`.
 */
module Patterns {
  import opened GoTypes

  predicate IsDigit(c: char) {
    '0' <= c <= '9'
  }

  function DigitChar(d: int): (c: char)
    requires 0 <= d <= 9
    ensures IsDigit(c)
  {
    '0' + d as char
  }

  function DigitValue(c: char): (d: nat)
    requires IsDigit(c)
  {
    c as int - '0' as int
  }

  // Reading

  predicate AllDigits(s: string) {
    forall i :: 0 <= i < |s| ==> IsDigit(s[i])
  }

  predicate Signed(s: string) {
    s != "" && (s[0] == '-' || s[0] == '+')
  }

  function Unsigned(s: string): string {
    if Signed(s) then s[1..] else s
  }

  /** `strconv.ParseUint`: accumulate digit by digit; anything else, or nothing at all, is an error. */
  function Accumulate(s: string, acc: nat): Option<nat> {
    if s == "" then Some(acc)
    else if !IsDigit(s[0]) then None
    else Accumulate(s[1..], acc * 10 + DigitValue(s[0]))
  }

  /** `strconv.ParseInt(s, 10, 64)`. */
  function ParseInt(s: string): Option<int> {
    var magnitude := if Unsigned(s) == "" then None else Accumulate(Unsigned(s), 0);
    if magnitude.None? then None
    else
      var n := if Signed(s) && s[0] == '-' then -(magnitude.value as int) else magnitude.value as int;
      if IsInt64(n) then Some(n) else None
  }

  /** What `isInteger` decides. */
  predicate IsInteger(s: string) {
    Unsigned(s) != "" && AllDigits(Unsigned(s))
  }

  method IsIntegerScan(s: string) returns (r: bool)
    ensures r == IsInteger(s)
  {
    if |s| == 0 {
      return false;
    }
    var start := 0;
    if s[0] == '-' || s[0] == '+' {
      start := 1;
    }
    if start >= |s| {
      return false;
    }
    for i := start to |s|
      invariant AllDigits(s[start..i])
    {
      if !IsDigit(s[i]) {
        assert !AllDigits(s[start..]) by {
          assert s[start..][i - start] == s[i];
        }
        return false;
      }
      assert s[start..i + 1] == s[start..i] + [s[i]];
    }
    assert s[start..|s|] == s[start..];
    return true;
  }

  // What a numeral denotes, as the reference for reading and printing: each character counts its code
  // less 48, times the power of ten of its place.

  function Pow10(k: nat): nat {
    if k == 0 then 1 else 10 * Pow10(k - 1)
  }

  function PlaceValue(s: string): int
    requires AllDigits(s)
  {
    if s == "" then 0 else (s[0] as int - 48) * Pow10(|s| - 1) + PlaceValue(s[1..])
  }

  function Denotes(s: string): int
    requires IsInteger(s)
  {
    if s[0] == '-' then -PlaceValue(Unsigned(s)) else PlaceValue(Unsigned(s))
  }

  lemma {:induction false} PlaceValueRange(s: string)
    requires AllDigits(s)
    ensures 0 <= PlaceValue(s) < Pow10(|s|)
  {
    if s != "" {
      PlaceValueRange(s[1..]);
      DigitTimes(s[0] as int - 48, Pow10(|s| - 1));
    }
  }

  lemma DigitTimes(d: int, p: nat)
    requires 0 <= d <= 9
    ensures 0 <= d * p <= 9 * p
  {
  }

  lemma {:induction false} PlaceValueAppend(s: string, c: char)
    requires AllDigits(s) && IsDigit(c)
    ensures AllDigits(s + [c]) && PlaceValue(s + [c]) == 10 * PlaceValue(s) + (c as int - 48)
  {
    if s != "" {
      assert (s + [c])[0] == s[0] && (s + [c])[1..] == s[1..] + [c];
      PlaceValueAppend(s[1..], c);
      Shifted(s[0] as int - 48, Pow10(|s| - 1));
    } else {
      assert ([] + [c])[1..] == "" && Pow10(0) == 1;
    }
  }

  lemma Shifted(d: int, p: nat)
    ensures d * (10 * p) == 10 * (d * p)
  {
  }

  lemma {:induction false} AccumulatePlaces(s: string, acc: nat)
    requires AllDigits(s)
    ensures Accumulate(s, acc) == Some(acc * Pow10(|s|) + PlaceValue(s))
    decreases |s|
  {
    if s != "" {
      AccumulatePlaces(s[1..], acc * 10 + DigitValue(s[0]));
      OnePlace(acc, DigitValue(s[0]), Pow10(|s| - 1));
    }
  }

  lemma OnePlace(acc: int, d: int, p: nat)
    ensures (acc * 10 + d) * p == acc * (10 * p) + d * p
  {
  }

  lemma {:induction false} AccumulateFails(s: string, acc: nat)
    requires !AllDigits(s)
    ensures Accumulate(s, acc) == None
    decreases |s|
  {
    if IsDigit(s[0]) {
      var i :| 0 <= i < |s| && !IsDigit(s[i]);
      assert s[1..][i - 1] == s[i];
      AccumulateFails(s[1..], acc * 10 + DigitValue(s[0]));
    }
  }

  // Printing

  /** The decimal digits of a positive number, none for zero. */
  function Digits(n: nat): string {
    if n == 0 then "" else Digits(n / 10) + [DigitChar(n % 10)]
  }

  lemma {:induction false} DigitsDenote(n: nat)
    ensures AllDigits(Digits(n)) && PlaceValue(Digits(n)) == n
    ensures n > 0 ==> Digits(n) != "" && Digits(n)[0] != '0'
  {
    if n > 0 {
      DigitsDenote(n / 10);
      PlaceValueAppend(Digits(n / 10), DigitChar(n % 10));
      DigitCode(n % 10);
    }
  }

  lemma DigitCode(d: int)
    requires 0 <= d <= 9
    ensures DigitChar(d) as int == 48 + d
  {
  }

  /** What `intToString` returns: negating the smallest 64-bit integer gives that integer again. */
  function IntToString(n: int): string
    requires IsInt64(n)
  {
    if n == 0 then "0" else
      var magnitude := if n < 0 then Wrap64(-n) else n;
      (if n < 0 then "-" else "") + Digits(Max(magnitude, 0))
  }

  lemma ZeroDenotes()
    ensures IsInteger("0") && Denotes("0") == 0
  {
    assert "0"[1..] == "" && Pow10(0) == 1;
  }

  /** The decimal numeral of `n`: a minus sign for a negative number, then digits that denote it, the first not zero unless it is all. */
  predicate IsNumeralOf(s: string, n: int) {
    && IsInteger(s) && Denotes(s) == n && (s[0] == '-' <==> n < 0) && s[0] != '+'
    && (|Unsigned(s)| > 1 ==> Unsigned(s)[0] != '0')
  }

  lemma DigitsAreNumeral(n: nat)
    ensures IsNumeralOf(if n == 0 then "0" else Digits(n), n)
  {
    ZeroDenotes();
    DigitsDenote(n);
  }

  /** Except for the smallest integer, what is printed is the numeral. */
  lemma PrintedShape(n: int)
    requires IsInt64(n) && n != MIN_INT64
    ensures IsNumeralOf(IntToString(n), n)
  {
    hide Wrap64, Digits;
    if n < 0 {
      DigitsDenote(-n);
      assert IntToString(n) == "-" + Digits(-n) && Unsigned(IntToString(n)) == Digits(-n);
    } else {
      DigitsAreNumeral(n);
      assert n > 0 ==> IntToString(n) == "" + Digits(n) == Digits(n);
    }
  }

  lemma SmallestPrinted()
    ensures IntToString(MIN_INT64) == "-"
  {
    NoDigits();
  }

  lemma NoDigits()
    ensures Digits(0) == ""
  {
  }

  lemma PrintedText(n: int)
    requires IsInt64(n)
    ensures n == 0 ==> IntToString(n) == "0"
    ensures var magnitude := if n < 0 then Wrap64(-n) else n;
            n != 0 ==> IntToString(n) == (if n < 0 then "-" else "") + Digits(Max(magnitude, 0))
    ensures if n == MIN_INT64 then IntToString(n) == "-" else IsNumeralOf(IntToString(n), n)
  {
    if n != MIN_INT64 {
      PrintedShape(n);
    } else {
      SmallestPrinted();
    }
  }

  const MAX_UINT64 := 0xFFFF_FFFF_FFFF_FFFF

  lemma Pow10Values()
    ensures Pow10(19) == 10_000_000_000_000_000_000 && Pow10(20) == 100_000_000_000_000_000_000
  {
    assert Pow10(5) == 100_000;
    assert Pow10(10) == 10_000_000_000;
    assert Pow10(15) == 1_000_000_000_000_000;
  }

  /** Taking the last digit off a number below `10^k` needs one place and leaves one below `10^(k-1)`. */
  lemma LastDigit(n: nat, k: nat)
    requires 0 < n < Pow10(k)
    ensures k > 0 && n / 10 < Pow10(k - 1)
    ensures Digits(n) == Digits(n / 10) + [DigitChar(n % 10)]
  {
  }

  /** `uintToString`: the 20-byte buffer is filled from its end and never underflows. */
  method UintToString(n: int) returns (s: string)
    requires 0 <= n <= MAX_UINT64
    ensures s == if n == 0 then "0" else Digits(n)
    ensures IsNumeralOf(s, n)
  {
    hide DigitChar, Pow10, Digits, IsNumeralOf, IsInteger, PlaceValue;
    DigitsAreNumeral(n);
    if n == 0 {
      return "0";
    }
    var buf := new char[20];
    var i, rest := 20, n;
    Pow10Values();
    NoDigits();
    while rest > 0
      invariant 0 <= i <= 20 && 0 <= rest < Pow10(i)
      invariant Digits(n) == Digits(rest) + buf[i..]
      decreases rest
    {
      LastDigit(rest, i);
      i := i - 1;
      ghost var done := buf[i + 1..];
      buf[i] := DigitChar(rest % 10);
      assert buf[i..] == [buf[i]] + done;
      rest := rest / 10;
    }
    return buf[i..];
  }

  /** `intToString`: the same loop leaves room for a minus sign. */
  method IntToStringInBuffer(n: int) returns (s: string)
    requires IsInt64(n)
    ensures s == IntToString(n)
    ensures if n == MIN_INT64 then s == "-" else IsNumeralOf(s, n)
  {
    hide DigitChar, Pow10, Digits, Wrap64, IsNumeralOf, IntToString;
    PrintedText(n);
    if n == 0 {
      return "0";
    }
    var negative := n < 0;
    var magnitude := if negative then Wrap64(-n) else n;
    var buf := new char[20];
    var i, rest := 20, magnitude;
    Pow10Values();
    NoDigits();
    while rest > 0
      invariant 1 <= i <= 20 && rest < Pow10(i - 1)
      invariant Digits(Max(magnitude, 0)) == Digits(Max(rest, 0)) + buf[i..]
      decreases rest
    {
      LastDigit(rest, i - 1);
      i := i - 1;
      ghost var done := buf[i + 1..];
      buf[i] := DigitChar(rest % 10);
      assert buf[i..] == [buf[i]] + done;
      rest := rest / 10;
    }
    if negative {
      i := i - 1;
      ghost var done := buf[i + 1..];
      buf[i] := '-';
      assert buf[i..] == ['-'] + done;
    }
    return buf[i..];
  }

  // Ranges

  /** The index of the dash that separates the two bounds, the first one apart from a leading sign, or -1. */
  function FindRangeDash(s: string): (d: int)
    ensures d == -1 <==> forall i :: 1 <= i < |s| ==> s[i] != '-'
    ensures d != -1 ==> 1 <= d < |s| && s[d] == '-' && forall i :: 1 <= i < d ==> s[i] != '-'
  {
    FindFrom(s, 1)
  }

  function FindFrom(s: string, i: nat): (d: int)
    requires i >= 1
    ensures d == -1 <==> forall j :: i <= j < |s| ==> s[j] != '-'
    ensures d != -1 ==> i <= d < |s| && s[d] == '-' && forall j :: i <= j < d ==> s[j] != '-'
    decreases |s| - i
  {
    if i >= |s| then -1 else if s[i] == '-' then i else FindFrom(s, i + 1)
  }

  method FindRangeDashScan(s: string) returns (d: int)
    ensures d == FindRangeDash(s)
  {
    var startIdx := 0;
    if |s| > 0 && s[0] == '-' {
      startIdx := 1;
    }
    for i := startIdx to |s|
      invariant forall j :: startIdx <= j < i ==> s[j] != '-'
    {
      if s[i] == '-' {
        return i;
      }
    }
    return -1;
  }

  predicate IsRangePattern(s: string) {
    var d := FindRangeDash(s);
    d != -1 && IsInteger(s[..d]) && IsInteger(s[d + 1..])
  }

  function ParseRange(s: string): Option<(int, int)> {
    var d := FindRangeDash(s);
    if d == -1 then None else
      var lo, hi := ParseInt(s[..d]), ParseInt(s[d + 1..]);
      if lo.None? || hi.None? then None else Some((lo.value, hi.value))
  }

  /** The range matcher. */
  predicate RangeMatches(pattern: string, value: string) {
    var v := ParseInt(value);
    var range := ParseRange(pattern);
    v.Some? && range.Some? && range.value.0 <= v.value <= range.value.1
  }

  // Dispatch

  datatype Kind = Exact | Any | Not | Dict | Greater | Less | Multi | Range | IP

  function CountChar(s: string, c: char): nat {
    if s == "" then 0 else (if s[0] == c then 1 else 0) + CountChar(s[1..], c)
  }

  /** A wildcard and four parts separated by dots. */
  predicate IsIPWildcardPattern(s: string) {
    '*' in s && CountChar(s, '.') == 3
  }

  function Parse(pattern: string): Kind {
    if pattern == "" then Exact
    else match pattern[0]
      case '+' => Any
      case '!' => Not
      case '@' => Dict
      case '>' => Greater
      case '<' => Less
      case _ =>
        if ',' in pattern then Multi
        else if IsRangePattern(pattern) then Range
        else if IsIPWildcardPattern(pattern) then IP
        else Exact
  }

  /** On every string, reading succeeds exactly for the integers the scan accepts that fit 64 bits, and gives what they denote. */
  lemma ParseIntExact(s: string)
    ensures ParseInt(s) == if IsInteger(s) && IsInt64(Denotes(s)) then Some(Denotes(s)) else None
  {
    var digits := Unsigned(s);
    if AllDigits(digits) {
      AccumulatePlaces(digits, 0);
    } else {
      AccumulateFails(digits, 0);
    }
  }

  /** Of two digit strings of one length the one with the smaller character at the first difference denotes less. */
  lemma {:induction false} PlaceOrder(s: string, t: string, k: nat)
    requires |s| == |t| && AllDigits(s) && AllDigits(t) && k < |s| && s[..k] == t[..k] && s[k] < t[k]
    ensures PlaceValue(s) < PlaceValue(t)
  {
    if k > 0 {
      assert s[0] == s[..k][0] == t[..k][0] == t[0];
      assert s[1..][..k - 1] == s[..k][1..] == t[..k][1..] == t[1..][..k - 1];
      PlaceOrder(s[1..], t[1..], k - 1);
    } else {
      PlaceValueRange(s[1..]);
      PlaceValueRange(t[1..]);
      AtLeastOneMore(s[0] as int - 48, t[0] as int - 48, Pow10(|s| - 1));
    }
  }

  lemma AtLeastOneMore(d: int, e: int, p: nat)
    requires d < e
    ensures d * p + p <= e * p
  {
    var k: nat := e - d - 1;
    assert (d + 1 + k) * p == d * p + p + k * p;
    assert k * p >= 0;
  }

  /** So numbers are read in the order of their first different digit. */
  lemma ParsedInOrder(s: string, t: string, k: nat)
    requires |s| == |t| && AllDigits(s) && AllDigits(t) && k < |s| && s[..k] == t[..k] && s[k] != t[k]
    requires ParseInt(s).Some? && ParseInt(t).Some?
    ensures ParseInt(s).value < ParseInt(t).value <==> s[k] < t[k]
  {
    hide PlaceValue;
    ParseIntExact(s);
    ParseIntExact(t);
    if s[k] < t[k] {
      PlaceOrder(s, t, k);
    } else {
      PlaceOrder(t, s, k);
    }
  }

  /**
   * On every string, the range matcher can read the bounds exactly when the dispatch calls it a range
   * and both bounds fit 64 bits.
   */
  lemma ParseRangeExact(s: string)
    ensures ParseRange(s).Some? <==>
              && IsRangePattern(s)
              && var d := FindRangeDash(s);
                 IsInt64(Denotes(s[..d])) && IsInt64(Denotes(s[d + 1..]))
  {
    hide ParseInt, Denotes;
    var d := FindRangeDash(s);
    if d != -1 {
      ParseIntExact(s[..d]);
      ParseIntExact(s[d + 1..]);
    }
  }

  /** For bounds that are integers of 64 bits and any value at all: the matcher accepts the integers between them. */
  lemma RangeMatchesExactly(lo: string, hi: string, value: string)
    requires IsInteger(lo) && IsInt64(Denotes(lo)) && IsInteger(hi) && IsInt64(Denotes(hi))
    ensures RangeMatches(lo + "-" + hi, value)
       <==> IsInteger(value) && IsInt64(Denotes(value)) && Denotes(lo) <= Denotes(value) <= Denotes(hi)
  {
    hide Denotes;
    DashFound(lo, hi);
    ParseIntExact(lo);
    ParseIntExact(hi);
    ParseIntExact(value);
  }

  lemma DashFound(lo: string, hi: string)
    requires IsInteger(lo)
    ensures var p := lo + "-" + hi;
            FindRangeDash(p) == |lo| && p[..|lo|] == lo && p[|lo| + 1..] == hi
  {
    var p := lo + "-" + hi;
    assert p[|lo|] == '-';
    forall i | 1 <= i < |lo| ensures p[i] != '-' {
      assert p[i] == lo[i] && lo[i] == if Signed(lo) then Unsigned(lo)[i - 1] else Unsigned(lo)[i];
    }
  }

  // Which matcher a pattern asks for

  function Join(parts: seq<string>, c: char): string {
    if parts == [] then "" else if |parts| == 1 then parts[0] else parts[0] + [c] + Join(parts[1..], c)
  }

  predicate AreParts(parts: seq<string>, s: string, c: char) {
    parts != [] && Join(parts, c) == s && forall i :: 0 <= i < |parts| ==> c !in parts[i]
  }

  lemma {:induction false} CountConcat(a: string, b: string, c: char)
    ensures CountChar(a + b, c) == CountChar(a, c) + CountChar(b, c)
  {
    if a == "" {
      assert a + b == b;
    } else {
      assert (a + b)[0] == a[0] && (a + b)[1..] == a[1..] + b;
      CountConcat(a[1..], b, c);
    }
  }

  lemma {:induction false} CountNone(s: string, c: char)
    requires c !in s
    ensures CountChar(s, c) == 0
  {
    if s != "" {
      CountNone(s[1..], c);
    }
  }

  lemma {:induction false} PartsCount(parts: seq<string>, s: string, c: char)
    requires AreParts(parts, s, c)
    ensures CountChar(s, c) == |parts| - 1
    decreases parts
  {
    CountNone(parts[0], c);
    if |parts| > 1 {
      var rest := Join(parts[1..], c);
      PartsCount(parts[1..], rest, c);
      CountConcat(parts[0] + [c], rest, c);
      CountConcat(parts[0], [c], c);
      assert CountChar([c], c) == 1;
    }
  }

  lemma {:induction false} PartsExist(s: string, c: char) returns (parts: seq<string>)
    ensures AreParts(parts, s, c) && |parts| == CountChar(s, c) + 1
  {
    if c !in s {
      CountNone(s, c);
      parts := [s];
    } else {
      var rest := PartsExist(s[1..], c);
      if s[0] == c {
        parts := [""] + rest;
        assert parts[1..] == rest && s == "" + [c] + s[1..];
      } else {
        parts := [[s[0]] + rest[0]] + rest[1..];
        assert parts[1..] == rest[1..] && s == [s[0]] + s[1..];
        assert |rest| > 1 ==> [s[0]] + (rest[0] + [c] + Join(rest[1..], c)) == ([s[0]] + rest[0]) + [c] + Join(rest[1..], c);
      }
    }
  }

  /** A pattern is taken for an IP address with wildcards when it has a wildcard and splits into four parts at its dots. */
  lemma IPWildcardExactly(s: string)
    ensures IsIPWildcardPattern(s) <==> '*' in s && exists parts :: AreParts(parts, s, '.') && |parts| == 4
  {
    hide AreParts, CountChar;
    if parts :| AreParts(parts, s, '.') && |parts| == 4 {
      PartsCount(parts, s, '.');
    }
    var parts := PartsExist(s, '.');
  }

  /** The dispatch: a prefix first, then a comma, then two integers around a dash, then a wildcard address. */
  lemma DispatchExactly(s: string)
    ensures Parse(s) == Any <==> s != "" && s[0] == '+'
    ensures Parse(s) == Not <==> s != "" && s[0] == '!'
    ensures Parse(s) == Dict <==> s != "" && s[0] == '@'
    ensures Parse(s) == Greater <==> s != "" && s[0] == '>'
    ensures Parse(s) == Less <==> s != "" && s[0] == '<'
    ensures var plain := s != "" && s[0] !in "+!@><";
            && (Parse(s) == Multi <==> plain && ',' in s)
            && (Parse(s) == Range <==> plain && ',' !in s && IsRangePattern(s))
            && (Parse(s) == IP <==> plain && ',' !in s && !IsRangePattern(s) && IsIPWildcardPattern(s))
  {
  }

  /** Such a pair of integers is one whose lower bound ends where the first dash after the first character is. */
  lemma RangePatternExactly(s: string)
    ensures IsRangePattern(s) <==> exists lo, hi :: IsInteger(lo) && IsInteger(hi) && s == lo + "-" + hi
  {
    if IsRangePattern(s) {
      var d := FindRangeDash(s);
      assert s == s[..d] + "-" + s[d + 1..];
    }
    if lo, hi :| IsInteger(lo) && IsInteger(hi) && s == lo + "-" + hi {
      DashFound(lo, hi);
    }
  }

  // Printing and reading back

  /** Reading what was printed gives the number back, for every 64-bit integer but the smallest. */
  lemma PrintedReadsBack(n: int)
    requires IsInt64(n)
    ensures ParseInt(IntToString(n)) == Some(n) <==> n != MIN_INT64
  {
    if n == MIN_INT64 {
      SmallestPrinted();
    } else {
      PrintedShape(n);
      ParseIntExact(IntToString(n));
    }
  }

  function RangePattern(lo: int, hi: int): string
    requires IsInt64(lo) && IsInt64(hi)
  {
    IntToString(lo) + "-" + IntToString(hi)
  }

  lemma RangeDashFound(lo: int, hi: int)
    requires IsInt64(lo) && IsInt64(hi) && lo != MIN_INT64
    ensures var p := RangePattern(lo, hi);
            var d := FindRangeDash(p);
            d != -1 && p[..d] == IntToString(lo) && p[d + 1..] == IntToString(hi)
  {
    PrintedShape(lo);
    DashFound(IntToString(lo), IntToString(hi));
  }

  /** A printed pattern is read back as its two bounds exactly when neither is the smallest integer. */
  lemma RangeReadsBack(lo: int, hi: int)
    requires IsInt64(lo) && IsInt64(hi)
    ensures ParseRange(RangePattern(lo, hi)) == Some((lo, hi)) <==> lo != MIN_INT64 && hi != MIN_INT64
  {
    hide IntToString, ParseInt;
    var p := RangePattern(lo, hi);
    if lo == MIN_INT64 {
      SmallestPrinted();
      assert p[0] == '-' && p[1] == '-';
      assert FindRangeDash(p) == 1 && p[..1] == "-";
      PrintedReadsBack(MIN_INT64);
    } else {
      RangeDashFound(lo, hi);
      PrintedReadsBack(lo);
      PrintedReadsBack(hi);
    }
  }

  /** The dispatch selects the range matcher for a printed pattern. */
  lemma RangeDispatched(lo: int, hi: int)
    requires IsInt64(lo) && IsInt64(hi) && lo != MIN_INT64 && hi != MIN_INT64
    ensures Parse(RangePattern(lo, hi)) == Range
  {
    hide IntToString;
    var p := RangePattern(lo, hi);
    var s, t := IntToString(lo), IntToString(hi);
    PrintedShape(lo);
    PrintedShape(hi);
    RangeDashFound(lo, hi);
    assert p[0] == s[0];
    forall i | 0 <= i < |p| ensures p[i] != ',' {
      assert i > |s| ==> p[i] == t[i - |s| - 1];
    }
  }

  /** The matcher so selected accepts a printed value exactly when it lies between the bounds. */
  lemma RangeRoundTrip(lo: int, hi: int, v: int)
    requires IsInt64(lo) && IsInt64(hi) && IsInt64(v) && lo != MIN_INT64 && hi != MIN_INT64
    ensures RangeMatches(RangePattern(lo, hi), IntToString(v)) <==> lo <= v <= hi
  {
    hide IntToString, ParseInt, ParseRange, RangePattern;
    RangeReadsBack(lo, hi);
    PrintedReadsBack(v);
    if v == MIN_INT64 {
      SmallestUnread();
    }
  }

  lemma SmallestUnread()
    ensures ParseInt(IntToString(MIN_INT64)) == None
  {
    SmallestPrinted();
  }

  /** It does so for all 64-bit values if and only if the lower bound is not the smallest integer. */
  lemma RangeRoundTripExactly(lo: int, hi: int)
    requires IsInt64(lo) && IsInt64(hi)
    ensures (forall v :: IsInt64(v) ==> (RangeMatches(RangePattern(lo, hi), IntToString(v)) <==> lo <= v <= hi))
       <==> lo != MIN_INT64
  {
    hide IntToString, ParseInt, ParseRange, RangePattern;
    if lo == MIN_INT64 {
      SmallestUnread();
      assert !RangeMatches(RangePattern(lo, hi), IntToString(MIN_INT64));
    } else if hi == MIN_INT64 {
      UnreadUpper(lo);
    } else {
      forall v | IsInt64(v) ensures RangeMatches(RangePattern(lo, hi), IntToString(v)) <==> lo <= v <= hi {
        RangeRoundTrip(lo, hi, v);
      }
    }
  }

  lemma UnreadUpper(lo: int)
    requires IsInt64(lo) && lo != MIN_INT64
    ensures ParseRange(RangePattern(lo, MIN_INT64)) == None
  {
    hide IntToString, ParseInt;
    RangeDashFound(lo, MIN_INT64);
    SmallestUnread();
  }
}
