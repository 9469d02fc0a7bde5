/** Decimal text for unsigned integers, as the Rust standard library writes
    and reads it: `format!("{}", n)` for a `usize`, `str::parse::<usize>()`,
    and right-aligned zero padding `format!("{:0>w}", ...)`. The target is
    taken to be 64-bit, so a `usize` holds at most `UsizeMax`. */
module Decimal {
  import opened Common

  const UsizeMax: nat := 0xFFFF_FFFF_FFFF_FFFF

  predicate IsDigit(c: char) { '0' <= c <= '9' }

  predicate AllDigits(s: string) { forall i | 0 <= i < |s| :: IsDigit(s[i]) }

  function DigitValue(c: char): (d: nat)
    requires IsDigit(c)
    ensures d < 10
  {
    c as int - '0' as int
  }

  function DigitChar(d: nat): (c: char)
    requires d < 10
    ensures IsDigit(c) && DigitValue(c) == d
  {
    ('0' as int + d) as char
  }

  /** The number a string of ASCII digits denotes, most significant first. */
  function Value(s: string): nat
    requires AllDigits(s)
  {
    if s == [] then 0 else 10 * Value(s[..|s| - 1]) + DigitValue(s[|s| - 1])
  }

  lemma ValueSnoc(s: string, c: char)
    requires AllDigits(s) && IsDigit(c)
    ensures AllDigits(s + [c]) && Value(s + [c]) == 10 * Value(s) + DigitValue(c)
  {
    assert (s + [c])[..|s|] == s;
  }

  /** `n` as `{}` writes it: the shortest digit string denoting `n`. */
  function Show(n: nat): (s: string)
    ensures 1 <= |s| && AllDigits(s) && Value(s) == n
    ensures |s| > 1 ==> s[0] != '0'
  {
    if n < 10 then
      [DigitChar(n)]
    else
      var prefix := Show(n / 10);
      ValueSnoc(prefix, DigitChar(n % 10));
      prefix + [DigitChar(n % 10)]
  }

  /** The digits `parse::<usize>` reads: everything after one optional
      leading `+`. A `-` is not stripped for an unsigned type, so it is
      rejected as a non-digit. */
  function Unsigned(s: string): string
  {
    if |s| > 0 && s[0] == '+' then s[1..] else s
  }

  /** `s.parse::<usize>()`: `Some` when, after an optional `+`, `s` is a
      non-empty run of ASCII digits (leading zeros allowed) whose value fits
      in a `usize`; `None` (the `Err` case) otherwise. */
  function ParseUsize(s: string): (r: Option<nat>)
    ensures r.Some? ==> r.value <= UsizeMax
    ensures r.Some? ==> AllDigits(Unsigned(s)) && r.value == Value(Unsigned(s))
    ensures Unsigned(s) == "" ==> r == None
    ensures Unsigned(s) != "" && AllDigits(Unsigned(s)) && Value(Unsigned(s)) <= UsizeMax ==>
      r == Some(Value(Unsigned(s)))
  {
    var digits := Unsigned(s);
    if digits != "" && AllDigits(digits) && Value(digits) <= UsizeMax then Some(Value(digits))
    else None
  }

  /** What `{}` writes, `parse::<usize>` reads back. */
  lemma ParseShow(n: nat)
    requires n <= UsizeMax
    ensures ParseUsize(Show(n)) == Some(n)
  {
    var s := Show(n);
    assert s[0] != '+' by { assert IsDigit(s[0]); }
  }

  /** A leading zero does not change the value of a digit string. */
  lemma {:induction false} ValueLeadingZero(s: string)
    requires AllDigits(s)
    ensures AllDigits("0" + s) && Value("0" + s) == Value(s)
  {
    if s != [] {
      var init := s[..|s| - 1];
      ValueLeadingZero(init);
      assert ("0" + s)[..|s|] == "0" + init;
    }
  }

  /** `count` copies of `c`. */
  function Repeat(c: char, count: nat): (r: string)
    ensures |r| == count && forall i | 0 <= i < count :: r[i] == c
  {
    if count == 0 then "" else [c] + Repeat(c, count - 1)
  }

  /** `format!("{:0>w}", s)`: `s` right-aligned in a field of `width`
      characters, filled with `'0'` on the left; a longer `s` is kept whole. */
  function ZeroPad(s: string, width: nat): (r: string)
    ensures |s| >= width ==> r == s
    ensures |s| < width ==> |r| == width
    ensures r == Repeat('0', |r| - |s|) + s
  {
    if |s| >= width then s else Repeat('0', width - |s|) + s
  }

  /** Leading zeros do not change the value of a digit string. */
  lemma {:induction false} ValueLeadingZeros(k: nat, s: string)
    requires AllDigits(s)
    ensures AllDigits(Repeat('0', k) + s) && Value(Repeat('0', k) + s) == Value(s)
  {
    if k > 0 {
      var rest := Repeat('0', k - 1) + s;
      ValueLeadingZeros(k - 1, s);
      ValueLeadingZero(rest);
      assert Repeat('0', k) + s == "0" + rest;
    } else {
      assert Repeat('0', k) + s == s;
    }
  }

  function Pow10(k: nat): nat
  {
    if k == 0 then 1 else 10 * Pow10(k - 1)
  }

  /** A number below `10^k` takes at most `k` digits (and always one). */
  lemma {:induction false} ShowLength(n: nat, k: nat)
    requires 1 <= k && n < Pow10(k)
    ensures |Show(n)| <= k
  {
    if n >= 10 {
      ShowLength(n / 10, k - 1);
    }
  }
}
