/** Decimal text of integers, as Rust's `Display` prints them and as
    `str::parse::<i32>` reads them. Used by `openat` (the `/proc/self/fd/N`
    paths) and by the `gid_map` file. */
module Decimal {
  import opened Prelude

  predicate IsDigit(c: char) {
    '0' <= c <= '9'
  }

  predicate AllDigits(s: string) {
    forall i :: 0 <= i < |s| ==> IsDigit(s[i])
  }

  function Digit(d: nat): (c: char)
    requires d < 10
    ensures IsDigit(c)
  {
    (('0' as int) + d) as char
  }

  function DigitValue(c: char): (d: nat)
    requires IsDigit(c)
    ensures d < 10 && Digit(d) == c
  {
    (c as int) - ('0' as int)
  }

  /** The value of a string of decimal digits, most significant first. */
  function DigitsValue(s: string): nat
    requires AllDigits(s)
    decreases |s|
  {
    if s == [] then 0 else DigitsValue(s[..|s| - 1]) * 10 + DigitValue(s[|s| - 1])
  }

  /** `n` in decimal: at least one digit, and no leading zero except for 0
      itself. */
  function ShowNat(n: nat): (s: string)
    ensures |s| >= 1 && AllDigits(s)
    ensures s[0] == '0' ==> n == 0
    decreases n
  {
    if n < 10 then [Digit(n)] else ShowNat(n / 10) + [Digit(n % 10)]
  }

  /** Reading back the printed digits gives the number. */
  lemma {:induction false} ShowNatValue(n: nat)
    ensures DigitsValue(ShowNat(n)) == n
    decreases n
  {
    if n >= 10 {
      var s := ShowNat(n);
      assert s[..|s| - 1] == ShowNat(n / 10);
      ShowNatValue(n / 10);
    }
  }

  /** An integer in decimal, with a leading `-` when negative. */
  function ShowInt(n: int): (s: string)
    ensures |s| >= 1 && forall i :: 0 <= i < |s| ==> s[i] == '-' || IsDigit(s[i])
  {
    if n < 0 then "-" + ShowNat(-n) else ShowNat(n)
  }

  const I32_MIN: int := -0x8000_0000
  const I32_MAX: int := 0x7FFF_FFFF

  predicate IsI32(n: int) {
    I32_MIN <= n <= I32_MAX
  }

  /** `str::parse::<i32>`: an optional `+` or `-`, then one digit or more,
      and a value that fits in 32 bits; anything else is refused. */
  function ParseI32(s: string): (r: Option<int>)
    ensures r.Some? ==> IsI32(r.value)
  {
    if s == [] then None
    else
      var digits := if s[0] == '-' || s[0] == '+' then s[1..] else s;
      if digits == [] || !AllDigits(digits) then None
      else
        var value: int := DigitsValue(digits);
        var v := if s[0] == '-' then -value else value;
        if IsI32(v) then Some(v) else None
  }

  /** Every 32-bit integer survives printing and parsing. */
  lemma ParseShowI32(n: int)
    requires IsI32(n)
    ensures ParseI32(ShowInt(n)) == Some(n)
  {
    var s := ShowInt(n);
    if n < 0 {
      var digits := ShowNat(-n);
      assert s == "-" + digits;
      assert s[0] == '-' && s[1..] == digits;
      ShowNatValue(-n);
      assert DigitsValue(digits) == -n;
    } else {
      assert s == ShowNat(n);
      assert IsDigit(s[0]);
      ShowNatValue(n);
      assert DigitsValue(s) == n;
    }
  }

  /** `str::replace(pat, "")`: every match of `pat`, found from left to
      right without overlap, is removed. */
  function ReplaceAll(s: string, pat: string): string
    requires |pat| > 0
    decreases |s|
  {
    if |s| < |pat| then s
    else if s[..|pat|] == pat then ReplaceAll(s[|pat|..], pat)
    else [s[0]] + ReplaceAll(s[1..], pat)
  }

  function Pow10(k: nat): (p: nat)
    ensures p >= 1
  {
    if k == 0 then 1 else 10 * Pow10(k - 1)
  }

  /** A number below `10^k` takes at most `k` digits. */
  lemma {:induction false} ShowNatLength(n: nat, k: nat)
    requires k >= 1 && n < Pow10(k)
    ensures |ShowNat(n)| <= k
    decreases k
  {
    if n >= 10 {
      ShowNatLength(n / 10, k - 1);
    }
  }

  /** A number of at least `10^(k-1)` takes at least `k` digits. */
  lemma {:induction false} ShowNatLengthAtLeast(n: nat, k: nat)
    requires k >= 1 && n >= Pow10(k - 1)
    ensures |ShowNat(n)| >= k
    decreases k
  {
    if k > 1 {
      assert n >= 10 * Pow10(k - 2);
      assert n / 10 >= Pow10(k - 2);
      ShowNatLengthAtLeast(n / 10, k - 1);
    }
  }

  /** `ReplaceAll` leaves alone a string without the first character of the
      pattern. */
  lemma {:induction false} ReplaceAllAbsent(s: string, pat: string)
    requires |pat| > 0
    requires forall i :: 0 <= i < |s| ==> s[i] != pat[0]
    ensures ReplaceAll(s, pat) == s
    decreases |s|
  {
    if |s| >= |pat| {
      assert s[..|pat|][0] == s[0];
      ReplaceAllAbsent(s[1..], pat);
      assert s == [s[0]] + s[1..];
    }
  }

  /** `s` right-aligned in a field of `width` characters, padded with
      spaces on the left (`{:>width}`); a longer number is not cut. */
  function PadLeft(s: string, width: nat): (r: string)
    ensures |r| == if |s| < width then width else |s|
    ensures r[|r| - |s|..] == s
    ensures forall i :: 0 <= i < |r| - |s| ==> r[i] == ' '
  {
    if |s| >= width then s else seq(width - |s|, _ => ' ') + s
  }
}
