/** The few pieces of the C library the game server leans on, written out over
    Dafny strings: the truncation `snprintf` applies to a fixed buffer, the `%d`
    conversion, `atoi` (section 7.22.1.2 of ISO C11) and `strstr`.
    A string stands for the bytes of a C string before its terminating NUL: each
    char is one byte, and none is NUL. */
module CText {

  /** BUFFER_SIZE: the size of every message buffer, and of the HTTP file-path buffer. */
  const BufferSize: nat := 256

  /** What `snprintf(buf, BufferSize, ...)` leaves in `buf`: the rendered text, cut
      to leave room for the terminating NUL. */
  function Truncate(s: string): (r: string)
    ensures |r| < BufferSize
    ensures r <= s
    ensures |s| < BufferSize ==> r == s
    ensures |s| >= BufferSize ==> |r| == BufferSize - 1
  {
    if |s| < BufferSize then s else s[..BufferSize - 1]
  }

  // ---------------------------------------------------------------------------
  // Decimal digits
  // ---------------------------------------------------------------------------

  predicate IsDigit(c: char) {
    '0' <= c <= '9'
  }

  predicate AllDigits(s: string) {
    forall i :: 0 <= i < |s| ==> IsDigit(s[i])
  }

  function DigitChar(d: nat): (c: char)
    requires d < 10
    ensures IsDigit(c)
  {
    (('0' as int) + d) as char
  }

  function DigitValue(c: char): (d: nat)
    requires IsDigit(c)
    ensures d < 10 && DigitChar(d) == c
  {
    (c as int) - ('0' as int)
  }

  function Pow10(k: nat): nat {
    if k == 0 then 1 else 10 * Pow10(k - 1)
  }

  /** The value of a string of decimal digits, most significant digit first. */
  function DigitsValue(ds: string): nat
    requires AllDigits(ds)
  {
    if ds == [] then 0 else DigitsValue(ds[..|ds| - 1]) * 10 + DigitValue(ds[|ds| - 1])
  }

  // ---------------------------------------------------------------------------
  // %d
  // ---------------------------------------------------------------------------

  /** `%d` of a non-negative value: its decimal digits without leading zeros. */
  function NatToString(n: nat): (r: string)
    ensures |r| > 0 && AllDigits(r)
    ensures |r| > 1 ==> r[0] != '0'
    decreases n
  {
    if n < 10 then [DigitChar(n)] else NatToString(n / 10) + [DigitChar(n % 10)]
  }

  /** `%d` of any value: a minus sign before the digits of a negative value. */
  function IntToString(i: int): string {
    if i < 0 then "-" + NatToString(-i) else NatToString(i)
  }

  /** The range of C's `int` on the server's platform (32 bits). */
  predicate IsInt32(x: int) {
    -0x8000_0000 <= x <= 0x7fff_ffff
  }

  lemma {:induction false} NatToStringValue(n: nat)
    ensures DigitsValue(NatToString(n)) == n
    decreases n
  {
    if n >= 10 {
      NatToStringValue(n / 10);
      var r := NatToString(n);
      assert r[..|r| - 1] == NatToString(n / 10);
    }
  }

  /** A value below 10^k has at most k digits. */
  lemma {:induction false} NatToStringLength(n: nat, k: nat)
    requires k >= 1 && n < Pow10(k)
    ensures |NatToString(n)| <= k
    decreases n
  {
    if n >= 10 {
      assert k >= 2;
      assert n / 10 < Pow10(k - 1);
      NatToStringLength(n / 10, k - 1);
    }
  }

  /** `%d` of a 32-bit value is at most eleven characters long. */
  lemma IntToStringLength(i: int)
    requires IsInt32(i)
    ensures 0 < |IntToString(i)| <= 11
  {
    assert Pow10(10) == 10_000_000_000;
    if i < 0 {
      NatToStringLength(-i, 10);
    } else {
      NatToStringLength(i, 10);
    }
  }

  // ---------------------------------------------------------------------------
  // atoi
  // ---------------------------------------------------------------------------

  /** `isspace` in the "C" locale: space, \t, \n, \v, \f and \r. */
  predicate IsSpace(c: char) {
    c == ' ' || c == '\t' || c == '\n' || c == '\r' || c as int == 0x0B || c as int == 0x0C
  }

  /** What is left of s once its leading white space is skipped. */
  function SkipSpace(s: string): (r: string)
    ensures |r| <= |s| && r == s[|s| - |r|..]
    ensures forall i :: 0 <= i < |s| - |r| ==> IsSpace(s[i])
    ensures r == [] || !IsSpace(r[0])
  {
    if s != [] && IsSpace(s[0]) then SkipSpace(s[1..]) else s
  }

  /** The longest prefix of s made of decimal digits. */
  function DigitPrefix(s: string): (r: string)
    ensures r <= s && AllDigits(r)
    ensures |r| < |s| ==> !IsDigit(s[|r|])
  {
    if s == [] || !IsDigit(s[0]) then [] else [s[0]] + DigitPrefix(s[1..])
  }

  /** `atoi`: white space, an optional sign, then as many decimal digits as follow;
      0 when no digit follows. */
  function Atoi(s: string): int {
    var t := SkipSpace(s);
    if t != [] && t[0] == '-' then -(DigitsValue(DigitPrefix(t[1..])) as int)
    else if t != [] && t[0] == '+' then DigitsValue(DigitPrefix(t[1..]))
    else DigitsValue(DigitPrefix(t))
  }

  /** The digit run of a string ends where its digits end. */
  lemma {:induction false} DigitPrefixOfDigits(ds: string, rest: string)
    requires AllDigits(ds)
    requires rest == [] || !IsDigit(rest[0])
    ensures DigitPrefix(ds + rest) == ds
    decreases |ds|
  {
    if ds == [] {
      assert ds + rest == rest;
    } else {
      assert (ds + rest)[1..] == ds[1..] + rest;
      DigitPrefixOfDigits(ds[1..], rest);
    }
  }

  /** `atoi` reads back what `%d` wrote, whatever text follows that does not start with a digit. */
  lemma AtoiIntToString(i: int, rest: string)
    requires rest == [] || !IsDigit(rest[0])
    ensures Atoi(IntToString(i) + rest) == i
  {
    if i < 0 {
      AtoiNegative(-i, rest);
    } else {
      AtoiNonNegative(i, rest);
    }
  }

  /** Text that starts with a digit is read as its digit run. */
  lemma AtoiUnsigned(s: string)
    requires s != [] && IsDigit(s[0])
    ensures Atoi(s) == DigitsValue(DigitPrefix(s))
  {
    assert !IsSpace(s[0]);
    assert SkipSpace(s) == s;
  }

  /** Text that starts with '-' is read as the negated digit run after it. */
  lemma AtoiMinus(s: string)
    requires s != [] && s[0] == '-'
    ensures Atoi(s) == -(DigitsValue(DigitPrefix(s[1..])) as int)
  {
    assert !IsSpace(s[0]);
    assert SkipSpace(s) == s;
  }

  lemma AtoiNonNegative(n: nat, rest: string)
    requires rest == [] || !IsDigit(rest[0])
    ensures Atoi(NatToString(n) + rest) == n
  {
    var d := NatToString(n);
    assert (d + rest)[0] == d[0];
    AtoiUnsigned(d + rest);
    DigitPrefixOfDigits(d, rest);
    NatToStringValue(n);
  }

  lemma AtoiNegative(n: nat, rest: string)
    requires n > 0
    requires rest == [] || !IsDigit(rest[0])
    ensures Atoi("-" + NatToString(n) + rest) == -(n as int)
  {
    var d := NatToString(n);
    var s := "-" + d + rest;
    assert s[0] == '-' && s[1..] == d + rest;
    AtoiMinus(s);
    DigitPrefixOfDigits(d, rest);
    NatToStringValue(n);
  }

  /** A payload with no digit after the white space and the sign reads as 0. */
  lemma AtoiNoDigits(s: string)
    requires var t := SkipSpace(s);
             var u := if t != [] && (t[0] == '-' || t[0] == '+') then t[1..] else t;
             u == [] || !IsDigit(u[0])
    ensures Atoi(s) == 0
  {
  }

  // ---------------------------------------------------------------------------
  // strstr
  // ---------------------------------------------------------------------------

  /** Whether `strstr(s, pat)` finds pat: the first window of s that equals pat. */
  function Contains(s: string, pat: string): bool
    decreases |s|
  {
    if |pat| > |s| then false
    else if s[..|pat|] == pat then true
    else Contains(s[1..], pat)
  }

  /** The window of s starting at i equals pat. */
  ghost predicate OccursAt(s: string, pat: string, i: int) {
    0 <= i <= |s| - |pat| && s[i..i + |pat|] == pat
  }

  /** pat occurs in s at some position. */
  ghost predicate Occurs(s: string, pat: string) {
    exists i :: OccursAt(s, pat, i)
  }

  lemma {:induction false} ContainsOccurs(s: string, pat: string)
    ensures Contains(s, pat) <==> Occurs(s, pat)
    decreases |s|
  {
    if |pat| > |s| {
      assert !Occurs(s, pat);
    } else if s[..|pat|] == pat {
      assert OccursAt(s, pat, 0);
    } else {
      ContainsOccurs(s[1..], pat);
      OccursShift(s, pat);
    }
  }

  /** When pat is not at the front of s, it occurs in s iff it occurs in s[1..]. */
  lemma OccursShift(s: string, pat: string)
    requires |pat| <= |s| && s[..|pat|] != pat
    ensures Occurs(s, pat) <==> Occurs(s[1..], pat)
  {
    if Occurs(s, pat) {
      var i :| OccursAt(s, pat, i);
      assert i != 0;
      assert s[1..][i - 1..i - 1 + |pat|] == s[i..i + |pat|];
      assert OccursAt(s[1..], pat, i - 1);
    }
    if Occurs(s[1..], pat) {
      var i :| OccursAt(s[1..], pat, i);
      assert s[i + 1..i + 1 + |pat|] == s[1..][i..i + |pat|];
      assert OccursAt(s, pat, i + 1);
    }
  }
}
