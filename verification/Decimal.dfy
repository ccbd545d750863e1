/** Decimal numerals as Go's strconv reads and writes 64-bit integers, and fields cut at a separator. */
module Decimal {
  import opened Basics

  predicate IsDigit(c: char) {
    '0' <= c <= '9'
  }

  function Digits(n: nat): string {
    if n < 10 then [n as char + '0'] else Digits(n / 10) + [(n % 10) as char + '0']
  }

  /** strconv.Itoa. */
  function Itoa(n: int): string {
    if n < 0 then "-" + Digits(-n) else Digits(n)
  }

  /** The number a non-empty string of digits denotes. */
  function DigitsValue(s: string): Option<nat> {
    if s == "" || !IsDigit(s[|s| - 1]) then None
    else
      var d := (s[|s| - 1] - '0') as int;
      if |s| == 1 then Some(d)
      else
        match DigitsValue(s[..|s| - 1])
        case None => None
        case Some(v) => Some(v * 10 + d)
  }

  /** strconv.Atoi: an optional sign, digits, and nothing that overflows 64 bits. */
  function Atoi(s: string): (r: Option<int>)
    ensures r.Some? ==> -MAX_INT64 - 1 <= r.value <= MAX_INT64
  {
    if s != "" && s[0] == '-' then
      match DigitsValue(s[1..])
      case None => None
      case Some(v) => if v <= MAX_INT64 + 1 then Some(-(v as int)) else None
    else
      match DigitsValue(if s != "" && s[0] == '+' then s[1..] else s)
      case None => None
      case Some(v) => if v <= MAX_INT64 then Some(v) else None
  }

  /** strings.Cut at a one-character separator: what stands before and after the first one. */
  function Cut(s: string, sep: char): Option<(string, string)> {
    if s == "" then None
    else if s[0] == sep then Some(("", s[1..]))
    else
      match Cut(s[1..], sep)
      case None => None
      case Some(parts) => Some(([s[0]] + parts.0, parts.1))
  }

  lemma {:induction false} DigitsReadBack(n: nat)
    ensures DigitsValue(Digits(n)) == Some(n)
    ensures Digits(n) != "" && forall i :: 0 <= i < |Digits(n)| ==> IsDigit(Digits(n)[i])
  {
    if n >= 10 {
      DigitsReadBack(n / 10);
      var s := Digits(n);
      assert s[..|s| - 1] == Digits(n / 10);
    }
  }

  lemma SignedReads(s: string, digits: string, v: nat)
    requires s == "-" + digits && DigitsValue(digits) == Some(v) && v <= MAX_INT64 + 1
    ensures Atoi(s) == Some(-(v as int))
  {
    assert s[1..] == digits;
  }

  lemma UnsignedReads(s: string, v: nat)
    requires s != "" && IsDigit(s[0]) && DigitsValue(s) == Some(v) && v <= MAX_INT64
    ensures Atoi(s) == Some(v)
  {
  }

  /** Every 64-bit integer is read back as it was written. */
  lemma ItoaReadsBack(n: int)
    requires -MAX_INT64 - 1 <= n <= MAX_INT64
    ensures Atoi(Itoa(n)) == Some(n)
  {
    if n < 0 {
      DigitsReadBack(-n);
      SignedReads("-" + Digits(-n), Digits(-n), -n);
    } else {
      DigitsReadBack(n);
      assert IsDigit(Digits(n)[0]);
      UnsignedReads(Digits(n), n);
    }
  }

  /** Different integers are written differently. */
  lemma ItoaInjective(m: int, n: int)
    requires Itoa(m) == Itoa(n)
    ensures m == n
  {
    DigitsReadBack(if m < 0 then -m else m);
    DigitsReadBack(if n < 0 then -n else n);
    assert (m < 0) == (Itoa(m)[0] == '-') && (n < 0) == (Itoa(n)[0] == '-');
    assert m < 0 ==> Itoa(m)[1..] == Digits(-m);
    assert n < 0 ==> Itoa(n)[1..] == Digits(-n);
  }

  lemma ItoaHas(n: int, c: char)
    requires !IsDigit(c) && c != '-'
    ensures c !in Itoa(n)
  {
    DigitsReadBack(if n < 0 then -n else n);
  }

  lemma {:induction false} CutAtFirst(before: string, sep: char, after: string)
    requires sep !in before
    ensures Cut(before + [sep] + after, sep) == Some((before, after))
    decreases |before|
  {
    var s := before + [sep] + after;
    if before == "" {
      assert s[1..] == after;
    } else {
      assert s[1..] == before[1..] + [sep] + after;
      CutAtFirst(before[1..], sep, after);
      assert before == [before[0]] + before[1..];
    }
  }

  /** Two integers joined by a separator that numerals never hold can be told apart again. */
  lemma PairInjective(a: int, b: int, c: int, d: int, sep: char)
    requires !IsDigit(sep) && sep != '-'
    requires Itoa(a) + [sep] + Itoa(b) == Itoa(c) + [sep] + Itoa(d)
    ensures a == c && b == d
  {
    ItoaHas(a, sep);
    ItoaHas(c, sep);
    CutAtFirst(Itoa(a), sep, Itoa(b));
    CutAtFirst(Itoa(c), sep, Itoa(d));
    ItoaInjective(a, c);
    ItoaInjective(b, d);
  }
}
